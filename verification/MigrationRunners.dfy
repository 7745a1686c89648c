/**
 Several `migrate` runs on one history table, interleaved between loading the indexes, deciding
 on a file and committing it; a commit is atomic and checked by both unique keys.
 */
module MigrationRunners {
  import opened Results
  import opened MigrationVersions
  import opened DbMigration
  import opened MigrationTheorems

  datatype Phase = Loading | Checking | Committing | Ended(outcome: Outcome) | Crashed

  datatype Runner = Runner(
    files: seq<MigrationFile>,
    position: nat,
    byVersion: map<string, Row>,
    byHash: map<string, Row>,
    phase: Phase)

  datatype World = World(rows: seq<Row>, log: seq<MigrationFile>, runners: seq<Runner>)

  datatype Action = Load(i: nat) | Check(i: nat) | Commit(i: nat, sqlOk: bool) | Crash(i: nat)

  function Start(rows: seq<Row>, fileLists: seq<seq<MigrationFile>>): World {
    World(rows, [], seq(|fileLists|, i requires 0 <= i < |fileLists| => Runner(fileLists[i], 0, map[], map[], Loading)))
  }

  function Checked(r: Runner): Runner
    requires r.position < |r.files|
  {
    match DecideIndexed(r.byVersion, r.byHash, r.files[r.position])
    case Skip => r.(position := r.position + 1)
    case VersionConflict => r.(phase := Ended(VersionConflictAt(r.position)))
    case ContentConflict => r.(phase := Ended(ContentConflictAt(r.position)))
    case Pending => r.(phase := Committing)
  }

  function Committed(r: Runner): Runner
    requires r.position < |r.files|
  {
    var f := r.files[r.position];
    Runner(r.files, r.position + 1, r.byVersion[f.version := RowOf(f)], r.byHash[f.hash := RowOf(f)], Checking)
  }

  function Put(w: World, i: nat, r: Runner): World
    requires i < |w.runners|
  {
    w.(runners := w.runners[i := r])
  }

  /** One step of one runner; a step that is not enabled changes nothing. */
  function Act(w: World, a: Action): World {
    if a.i >= |w.runners| then w
    else
      var r := w.runners[a.i];
      match a
      case Load(i) =>
        if r.phase != Loading then w
        else Put(w, i, r.(byVersion := LoadByVersion(w.rows), byHash := LoadByHash(w.rows), phase := Checking))
      case Check(i) =>
        if r.phase != Checking then w
        else if r.position >= |r.files| then Put(w, i, r.(phase := Ended(Completed)))
        else Put(w, i, Checked(r))
      case Commit(i, sqlOk) =>
        if r.phase != Committing || r.position >= |r.files| then w
        else
          var f := r.files[r.position];
          if sqlOk && Insertable(w.rows, f) then
            World(w.rows + [RowOf(f)], w.log + [f], w.runners[i := Committed(r)])
          else Put(w, i, r.(phase := Ended(FailedAt(r.position))))
      case Crash(i) => Put(w, i, r.(phase := Crashed))
  }

  function Exec(w: World, actions: seq<Action>): World
    decreases |actions|
  {
    if actions == [] then w else Exec(Act(w, actions[0]), actions[1..])
  }

  // ---- the invariant -----------------------------------------------------------------------------------

  // The table has the file's version with the file's hash.
  predicate IsApplied(rows: seq<Row>, f: MigrationFile) {
    exists r | r in rows :: r.success && r.version == f.version && r.hash == Some(f.hash)
  }

  ghost predicate IndexesWithin(r: Runner, rows: seq<Row>) {
    && (forall v | v in r.byVersion :: r.byVersion[v] in rows && r.byVersion[v].success && r.byVersion[v].version == v)
    && (forall h | h in r.byHash :: r.byHash[h] in rows && r.byHash[h].hash == Some(h))
  }

  ghost predicate RunnerOk(r: Runner, rows: seq<Row>) {
    && HashedFiles(r.files)
    && r.position <= |r.files|
    && IndexesWithin(r, rows)
    && (forall k | 0 <= k < r.position :: IsApplied(rows, r.files[k]))
    && (r.phase == Ended(Completed) ==> r.position == |r.files|)
  }

  ghost predicate Inv(w: World, initial: seq<Row>) {
    && w.rows == initial + RowsOf(w.log)
    && GoodTable(w.rows)
    && forall i | 0 <= i < |w.runners| :: RunnerOk(w.runners[i], w.rows)
  }

  lemma StartIsOk(rows: seq<Row>, fileLists: seq<seq<MigrationFile>>)
    requires GoodTable(rows) && forall i | 0 <= i < |fileLists| :: HashedFiles(fileLists[i])
    ensures Inv(Start(rows, fileLists), rows)
  {
    assert rows + RowsOf([]) == rows;
  }

  lemma {:induction false} LoadedIsWithin(rows: seq<Row>)
    ensures forall v | v in LoadByVersion(rows) ::
              LoadByVersion(rows)[v] in rows && LoadByVersion(rows)[v].success && LoadByVersion(rows)[v].version == v
    ensures forall h | h in LoadByHash(rows) :: LoadByHash(rows)[h] in rows && LoadByHash(rows)[h].hash == Some(h)
  {
    if rows != [] {
      LoadedIsWithin(rows[..|rows| - 1]);
      assert rows == rows[..|rows| - 1] + [rows[|rows| - 1]];
    }
  }

  lemma AppliedStays(rows: seq<Row>, row: Row, f: MigrationFile)
    requires IsApplied(rows, f)
    ensures IsApplied(rows + [row], f)
  {
    var x :| x in rows && x.success && x.version == f.version && x.hash == Some(f.hash);
    assert x in rows + [row];
  }

  lemma RunnerStaysOk(r: Runner, rows: seq<Row>, row: Row)
    requires RunnerOk(r, rows)
    ensures RunnerOk(r, rows + [row])
  {
    hide IsApplied;
    var all := rows + [row];
    forall x | x in rows ensures x in all {}
    forall k | 0 <= k < r.position ensures IsApplied(all, r.files[k]) {
      AppliedStays(rows, row, r.files[k]);
    }
  }

  lemma CheckKeepsOk(r: Runner, rows: seq<Row>)
    requires RunnerOk(r, rows) && r.position < |r.files| && r.phase == Checking
    ensures RunnerOk(Checked(r), rows)
  {
    var f := r.files[r.position];
    if DecideIndexed(r.byVersion, r.byHash, f) == Skip {
      assert r.byVersion[f.version] in rows;
      assert IsApplied(rows, f);
    }
  }

  lemma CommitKeepsOk(r: Runner, rows: seq<Row>)
    requires RunnerOk(r, rows) && r.position < |r.files|
    ensures RunnerOk(Committed(r), rows + [RowOf(r.files[r.position])])
  {
    var row := RowOf(r.files[r.position]);
    RunnerStaysOk(r, rows, row);
    var all := rows + [row];
    assert all[|rows|] == row;
    assert IsApplied(all, r.files[r.position]);
  }

  lemma ActKeepsInv(w: World, a: Action, initial: seq<Row>)
    requires Inv(w, initial)
    ensures Inv(Act(w, a), initial)
    ensures w.rows <= Act(w, a).rows && w.log <= Act(w, a).log
  {
    if a.i < |w.runners| {
      var r := w.runners[a.i];
      assert RunnerOk(r, w.rows);
      match a {
        case Load(i) => LoadedIsWithin(w.rows);
        case Check(i) =>
          if r.phase == Checking && r.position < |r.files| {
            CheckKeepsOk(r, w.rows);
          }
        case Commit(i, sqlOk) =>
          if r.phase == Committing && r.position < |r.files| && sqlOk && Insertable(w.rows, r.files[r.position]) {
            CommitStep(w, i, initial);
          }
        case Crash(i) =>
      }
    }
  }

  lemma CommitStep(w: World, i: nat, initial: seq<Row>)
    requires Inv(w, initial) && i < |w.runners|
    requires w.runners[i].phase == Committing && w.runners[i].position < |w.runners[i].files|
    requires Insertable(w.rows, w.runners[i].files[w.runners[i].position])
    ensures Inv(Act(w, Commit(i, true)), initial)
  {
    var r := w.runners[i];
    var f := r.files[r.position];
    assert RunnerOk(r, w.rows) && f in r.files;
    InsertKeepsGood(w.rows, f);
    CommitKeepsOk(r, w.rows);
    assert RowsOf(w.log + [f]) == RowsOf(w.log) + [RowOf(f)];
    forall j | 0 <= j < |w.runners| ensures RunnerOk(w.runners[j], w.rows + [RowOf(f)]) {
      RunnerStaysOk(w.runners[j], w.rows, RowOf(f));
    }
  }

  lemma {:induction false} ExecKeepsInv(w: World, actions: seq<Action>, initial: seq<Row>)
    requires Inv(w, initial)
    ensures Inv(Exec(w, actions), initial)
    ensures w.rows <= Exec(w, actions).rows
    decreases |actions|
  {
    if actions != [] {
      hide Act, Inv;
      ActKeepsInv(w, actions[0], initial);
      ExecKeepsInv(Act(w, actions[0]), actions[1..], initial);
    }
  }

  /**
   Safety of concurrent runners. From any hashed table, in any interleaving of any number of runs with
   crashes and SQL failures anywhere: old rows never change; each version's SQL commits at most once and
   never for a version of the old table; version and hash stay one-to-one; every index entry of every
   runner is a row of the table; and a runner that reports completion finds all its files applied.
   */
  lemma InterleavedRunnersAreSafe(rows: seq<Row>, fileLists: seq<seq<MigrationFile>>, actions: seq<Action>)
    requires GoodTable(rows) && forall i | 0 <= i < |fileLists| :: HashedFiles(fileLists[i])
    ensures var w := Exec(Start(rows, fileLists), actions);
            && w.rows == rows + RowsOf(w.log)
            && (forall i, j | 0 <= i < j < |w.log| :: w.log[i].version != w.log[j].version)
            && (forall i, r | 0 <= i < |w.log| && r in rows :: w.log[i].version != r.version)
            && (forall r, s | r in w.rows && s in w.rows :: r.version == s.version <==> r.hash == s.hash)
            && (forall i | 0 <= i < |w.runners| :: IndexesWithin(w.runners[i], w.rows))
            && (forall i, f | 0 <= i < |w.runners| && w.runners[i].phase == Ended(Completed) && f in w.runners[i].files
                  :: IsApplied(w.rows, f))
  {
    hide Exec, Start;
    StartIsOk(rows, fileLists);
    ExecKeepsInv(Start(rows, fileLists), actions, rows);
    var w := Exec(Start(rows, fileLists), actions);
    LogIsDistinct(w, rows);
    KeysAreOneToOne(w.rows);
    assert forall i | 0 <= i < |w.runners| :: RunnerOk(w.runners[i], w.rows);
  }

  lemma LogIsDistinct(w: World, initial: seq<Row>)
    requires Inv(w, initial)
    ensures forall i, j | 0 <= i < j < |w.log| :: w.log[i].version != w.log[j].version
    ensures forall i, r | 0 <= i < |w.log| && r in initial :: w.log[i].version != r.version
  {
    forall i | 0 <= i < |w.log| ensures w.rows[|initial| + i].version == w.log[i].version {
      assert w.rows[|initial| + i] == RowsOf(w.log)[i];
    }
    forall i, r | 0 <= i < |w.log| && r in initial ensures w.log[i].version != r.version {
      var k :| 0 <= k < |initial| && initial[k] == r;
      assert w.rows[k] == r;
    }
  }

  lemma KeysAreOneToOne(rows: seq<Row>)
    requires GoodTable(rows)
    ensures forall r, s | r in rows && s in rows :: r.version == s.version <==> r.hash == s.hash
  {
    forall r, s | r in rows && s in rows ensures r.version == s.version <==> r.hash == s.hash {
      var i :| 0 <= i < |rows| && rows[i] == r;
      var j :| 0 <= j < |rows| && rows[j] == s;
      assert i < j || i == j || j < i;
    }
  }

  // ---- the method's loop is one of these interleavings ---------------------------------------------------

  lemma {:induction false} SoloFrom(w: World, sqlOk: SqlOutcome) returns (actions: seq<Action>)
    requires |w.runners| == 1 && w.runners[0].phase == Checking && HashedFiles(w.runners[0].files)
    requires IndexesAgree(w.runners[0].byVersion, w.runners[0].byHash, w.rows)
    requires w.runners[0].position <= |w.runners[0].files|
    ensures var run := RunFrom(w.rows, w.runners[0].files, sqlOk, w.runners[0].position);
            var end := Exec(w, actions);
            && end.rows == run.rows && end.log == w.log + run.executed
            && |end.runners| == 1 && end.runners[0].phase == Ended(run.outcome)
    decreases |w.runners[0].files| - w.runners[0].position
  {
    hide RunFrom, Decide, IndexesAgree;
    var r := w.runners[0];
    var i := r.position;
    RunEnd(w.rows, r.files, sqlOk);
    assert w.log + [] == w.log;
    if i == |r.files| {
      actions := [Check(0)];
      assert Exec(w, actions) == Act(w, Check(0));
    } else {
      var f := r.files[i];
      IndexedDecisionIsDecision(r.byVersion, r.byHash, w.rows, f);
      RunStep(w.rows, r.files, sqlOk, i);
      var w1 := Act(w, Check(0));
      match Decide(w.rows, f) {
        case Skip =>
          var rest := SoloFrom(w1, sqlOk);
          actions := [Check(0)] + rest;
          assert actions[1..] == rest;
        case VersionConflict =>
          actions := [Check(0)];
          assert Exec(w, actions) == w1;
        case ContentConflict =>
          actions := [Check(0)];
          assert Exec(w, actions) == w1;
        case Pending =>
          var commit := Commit(0, sqlOk(i));
          var w2 := Act(w1, commit);
          if sqlOk(i) && Insertable(w.rows, f) {
            IndexesAfterInsert(r.byVersion, r.byHash, w.rows, f);
            StepExecuted(w.rows, r.files, sqlOk, i, []);
            var rest := SoloFrom(w2, sqlOk);
            actions := [Check(0), commit] + rest;
            TwoSteps(w, Check(0), commit, rest);
            var later := RunFrom(w2.rows, r.files, sqlOk, i + 1).executed;
            assert (w.log + [f]) + later == w.log + (([] + [f]) + later);
          } else {
            actions := [Check(0), commit] + [];
            TwoSteps(w, Check(0), commit, []);
          }
      }
    }
  }

  lemma TwoSteps(w: World, a: Action, b: Action, rest: seq<Action>)
    ensures Exec(w, [a, b] + rest) == Exec(Act(Act(w, a), b), rest)
  {
    assert ([a, b] + rest)[1..] == [b] + rest;
    assert ([b] + rest)[1..] == rest;
  }

  /** A run that is alone on the table behaves as `ApplyMigrations` specifies. */
  lemma SoloRunnerIsRun(rows: seq<Row>, files: seq<MigrationFile>, sqlOk: SqlOutcome) returns (actions: seq<Action>)
    requires HashedFiles(files)
    ensures var run := Run(rows, files, sqlOk);
            var end := Exec(Start(rows, [files]), actions);
            && end.rows == run.rows && end.log == run.executed
            && |end.runners| == 1 && end.runners[0].phase == Ended(run.outcome)
  {
    hide RunFrom, IndexesAgree;
    var w := Start(rows, [files]);
    var loaded := Act(w, Load(0));
    LoadedIndexesAgree(rows);
    var rest := SoloFrom(loaded, sqlOk);
    actions := [Load(0)] + rest;
    assert actions[1..] == rest;
    assert [] + Run(rows, files, sqlOk).executed == Run(rows, files, sqlOk).executed;
  }

  // ---- runners that share one list of files ------------------------------------------------------------------

  function Versions(files: seq<MigrationFile>): set<string> {
    set f | f in files :: f.version
  }

  lemma {:induction false} NewVersionsAppend(seen: set<string>, a: seq<MigrationFile>, b: seq<MigrationFile>)
    ensures NewVersions(seen, a + b) == NewVersions(seen, a) + NewVersions(seen + Versions(a), b)
    decreases |a|
  {
    if a == [] {
      assert a + b == b && seen + Versions(a) == seen;
    } else {
      assert (a + b)[1..] == a[1..] + b;
      assert a == [a[0]] + a[1..];
      assert Versions(a) == {a[0].version} + Versions(a[1..]);
      if a[0].version in seen {
        NewVersionsAppend(seen, a[1..], b);
        assert seen + Versions(a[1..]) == seen + Versions(a);
      } else {
        NewVersionsAppend(seen + {a[0].version}, a[1..], b);
        assert seen + {a[0].version} + Versions(a[1..]) == seen + Versions(a);
      }
    }
  }

  lemma NewVersionsPrefix(seen: set<string>, files: seq<MigrationFile>, p: nat)
    requires p <= |files|
    ensures NewVersions(seen, files[..p]) <= NewVersions(seen, files)
    ensures p < |files| && files[p].version !in seen + Versions(files[..p]) ==>
              NewVersions(seen, files[..p]) + [files[p]] <= NewVersions(seen, files)
  {
    NewVersionsAppend(seen, files[..p], files[p..]);
    assert files == files[..p] + files[p..];
    if p < |files| && files[p].version !in seen + Versions(files[..p]) {
      assert files[p..][0] == files[p];
    }
  }

  // The log's rows are the rows that the initial table did not have.
  lemma NewRowIsLogged(w: World, initial: seq<Row>, f: MigrationFile)
    requires Inv(w, initial) && IsApplied(w.rows, f) && f.version !in Applied(initial)
    ensures exists j :: 0 <= j < |w.log| && w.log[j].version == f.version
  {
    var r :| r in w.rows && r.success && r.version == f.version && r.hash == Some(f.hash);
    var k :| 0 <= k < |w.rows| && w.rows[k] == r;
    assert r !in initial;
    assert forall i | 0 <= i < |initial| :: w.rows[i] in initial;
    assert w.rows[k] == RowsOf(w.log)[k - |initial|];
  }

  // What a runner has passed is no more than what the log holds.
  lemma PassedIsLogged(w: World, initial: seq<Row>, r: Runner)
    requires Inv(w, initial) && RunnerOk(r, w.rows)
    requires w.log <= NewVersions(Applied(initial), r.files)
    ensures NewVersions(Applied(initial), r.files[..r.position]) <= w.log
  {
    hide NewVersions;
    var seen := Applied(initial);
    var all, passed := NewVersions(seen, r.files), NewVersions(seen, r.files[..r.position]);
    NewVersionsPrefix(seen, r.files, r.position);
    if |passed| > |w.log| {
      var f := passed[|w.log|];
      assert f == all[|w.log|] && f in passed;
      NewVersionsMembers(seen, r.files[..r.position]);
      var k :| 0 <= k < r.position && r.files[k] == f;
      NewRowIsLogged(w, initial, f);
      NewVersionsDistinct(seen, r.files);
    }
  }

  lemma FileIsNew(w: World, initial: seq<Row>, r: Runner)
    requires Inv(w, initial) && RunnerOk(r, w.rows) && r.position < |r.files|
    requires Insertable(w.rows, r.files[r.position])
    ensures r.files[r.position].version !in Applied(initial) + Versions(r.files[..r.position])
  {
    var f := r.files[r.position];
    forall x | x in initial ensures x.version != f.version {
      assert x in w.rows;
    }
    forall g | g in r.files[..r.position] ensures g.version != f.version {
      var k :| 0 <= k < r.position && r.files[k] == g;
      assert IsApplied(w.rows, g);
    }
  }

  // A file that a runner can commit is the next one.
  lemma CommitIsNext(w: World, initial: seq<Row>, r: Runner)
    requires Inv(w, initial) && RunnerOk(r, w.rows) && r.position < |r.files|
    requires w.log <= NewVersions(Applied(initial), r.files) && Insertable(w.rows, r.files[r.position])
    ensures w.log + [r.files[r.position]] <= NewVersions(Applied(initial), r.files)
  {
    hide NewVersions;
    var f := r.files[r.position];
    var passed := NewVersions(Applied(initial), r.files[..r.position]);
    FileIsNew(w, initial, r);
    NewVersionsPrefix(Applied(initial), r.files, r.position);
    PassedIsLogged(w, initial, r);
    LoggedIsInTable(w, initial);
    assert f !in w.log;
    NextElement(passed, w.log, f, NewVersions(Applied(initial), r.files));
  }

  lemma LoggedIsInTable(w: World, initial: seq<Row>)
    requires Inv(w, initial)
    ensures forall f | f in w.log :: RowOf(f) in w.rows
  {
    forall f | f in w.log ensures RowOf(f) in w.rows {
      var j :| 0 <= j < |w.log| && w.log[j] == f;
      assert w.rows[|initial| + j] == RowsOf(w.log)[j];
    }
  }

  lemma NextElement<T>(passed: seq<T>, log: seq<T>, x: T, all: seq<T>)
    requires passed <= log <= all && passed + [x] <= all && x !in log
    ensures log == passed
  {
    if |passed| < |log| { ElementIn(passed, log, x, all); }
  }

  lemma ElementIn<T>(passed: seq<T>, log: seq<T>, x: T, all: seq<T>)
    requires log <= all && passed + [x] <= all && |passed| < |log|
    ensures x in log
  {
    assert log[|passed|] == all[|passed|] == (passed + [x])[|passed|];
  }

  ghost predicate SharedInv(w: World, initial: seq<Row>, files: seq<MigrationFile>) {
    && Inv(w, initial)
    && (forall i | 0 <= i < |w.runners| :: w.runners[i].files == files)
    && w.log <= NewVersions(Applied(initial), files)
  }

  lemma ActKeepsShared(w: World, a: Action, initial: seq<Row>, files: seq<MigrationFile>)
    requires SharedInv(w, initial, files)
    ensures SharedInv(Act(w, a), initial, files)
  {
    ActKeepsInv(w, a, initial);
    hide Inv, NewVersions, RunnerOk, Applied, DecideIndexed;
    if a.Commit? && a.i < |w.runners| {
      var r := w.runners[a.i];
      if r.phase == Committing && r.position < |r.files| && a.sqlOk && Insertable(w.rows, r.files[r.position]) {
        RunnerIsOk(w, initial, a.i);
        CommitIsNext(w, initial, r);
      }
    }
  }

  lemma RunnerIsOk(w: World, initial: seq<Row>, i: nat)
    requires Inv(w, initial) && i < |w.runners|
    ensures RunnerOk(w.runners[i], w.rows)
  {}

  lemma {:induction false} ExecKeepsShared(
    w: World, actions: seq<Action>, initial: seq<Row>, files: seq<MigrationFile>)
    requires SharedInv(w, initial, files)
    ensures SharedInv(Exec(w, actions), initial, files)
    decreases |actions|
  {
    if actions != [] {
      hide Act, SharedInv;
      ActKeepsShared(w, actions[0], initial, files);
      ExecKeepsShared(Act(w, actions[0]), actions[1..], initial, files);
    }
  }

  lemma ConflictFreeRun(rows: seq<Row>, files: seq<MigrationFile>)
    requires GoodTable(rows) && HashedFiles(files) && ConflictFree(rows, files)
    ensures Run(rows, files, AlwaysOk).executed == NewVersions(Applied(rows), files)
    ensures Run(rows, files, AlwaysOk).rows == rows + RowsOf(NewVersions(Applied(rows), files))
  {
    hide RunFrom, NewVersions, Applied, ConflictFree, GoodTable;
    CompletesExactly(rows, files);
    RunExecutesPending(rows, files, AlwaysOk, 0);
    RunAppends(rows, files, AlwaysOk, 0);
    assert files[0..|files|] == files;
  }

  /**
   Runners that share one conflict-free list act as one runner. In any interleaving with any crashes and SQL
   failures, what they have committed together is the beginning of what one uninterrupted run executes, in
   its order; and once any of them completes, log and table are those of that run.
   */
  lemma SharedListIsOneRun(rows: seq<Row>, files: seq<MigrationFile>, runners: nat, actions: seq<Action>)
    requires GoodTable(rows) && HashedFiles(files) && ConflictFree(rows, files)
    ensures var w := Exec(Start(rows, seq(runners, _ => files)), actions);
      var run := Run(rows, files, AlwaysOk);
      && w.log <= run.executed
      && ((exists i :: 0 <= i < |w.runners| && w.runners[i].phase == Ended(Completed)) ==>
          w.log == run.executed && w.rows == run.rows)
  {
    hide Exec, Start, ConflictFree, GoodTable, NewVersions, Applied, RunFrom, Run;
    var lists := seq(runners, _ => files);
    StartIsShared(rows, files, runners);
    ExecKeepsShared(Start(rows, lists), actions, rows, files);
    ConflictFreeRun(rows, files);
    var w := Exec(Start(rows, lists), actions);
    if i :| 0 <= i < |w.runners| && w.runners[i].phase == Ended(Completed) {
      RunnerIsOk(w, rows, i);
      PassedIsLogged(w, rows, w.runners[i]);
      assert files[..|files|] == files;
    }
  }

  lemma StartIsShared(rows: seq<Row>, files: seq<MigrationFile>, runners: nat)
    requires GoodTable(rows) && HashedFiles(files)
    ensures SharedInv(Start(rows, seq(runners, _ => files)), rows, files)
  {
    hide GoodTable, HashedFiles;
    StartIsOk(rows, seq(runners, _ => files));
  }

  lemma CrashedStaysCrashed(w: World, a: Action, i: nat)
    requires i < |w.runners| && w.runners[i].phase.Crashed?
    ensures |Act(w, a).runners| == |w.runners| && Act(w, a).runners[i].phase.Crashed?
    ensures a.i == i ==> Act(w, a).rows == w.rows && Act(w, a).log == w.log
  {}

  /** A crash can come at any moment and takes nothing back; the runner never acts again. */
  lemma {:induction false} CrashIsFinal(w: World, i: nat, actions: seq<Action>)
    requires i < |w.runners|
    ensures Act(w, Crash(i)).rows == w.rows && Act(w, Crash(i)).log == w.log
    ensures i < |Exec(Act(w, Crash(i)), actions).runners|
    ensures Exec(Act(w, Crash(i)), actions).runners[i].phase.Crashed?
  {
    hide Exec;
    ExecKeepsCrashed(Act(w, Crash(i)), i, actions);
  }

  lemma {:induction false} ExecKeepsCrashed(w: World, i: nat, actions: seq<Action>)
    requires i < |w.runners| && w.runners[i].phase.Crashed?
    ensures i < |Exec(w, actions).runners| && Exec(w, actions).runners[i].phase.Crashed?
    decreases |actions|
  {
    if actions != [] {
      hide Act;
      CrashedStaysCrashed(w, actions[0], i);
      ExecKeepsCrashed(Act(w, actions[0]), i, actions[1..]);
    }
  }
}
