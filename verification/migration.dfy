/**
 * One migration and the engine that runs it in one direction: `Run` picks
 * the script or Go-function path from the source's extension, runs the
 * selected function directly or inside a transaction, and records or
 * removes the version row.
 */
module Migrations {
  import opened Results
  import opened StrConv
  import opened Paths
  import opened Database
  import opened Versions

  /**
   * A registered Go migration function, described by what it does when
   * called: the payload effects it executed, in order, before returning, and
   * the error it returned, if any.
   */
  datatype GoFunc = GoFunc(effects: seq<Effect>, err: Option<DbError>)

  datatype Migration = Migration(
    version: Int64,
    next: Int64,               // next version, or -1 if none; not used by Run
    previous: Int64,           // previous version, or -1 if none; not used by Run
    source: string,            // path of the .sql script or .go file
    registered: bool,          // whether Go functions were registered for it
    upFn: Option<GoFunc>,      // None is Go's nil function
    downFn: Option<GoFunc>,
    noTx: bool)

  /** The answer of the SQL-script runner: its error, if any, and the database it leaves. */
  datatype ScriptAnswer = ScriptAnswer(err: Option<DbError>, after: Db)

  /**
   * The answer to tx.Commit(). A failed commit may or may not have reached
   * the database (`persisted`): the caller cannot tell which.
   */
  datatype CommitAnswer = Committed | CommitFailed(err: DbError, persisted: bool)

  /**
   * What the world answers during one run: the SQL-script runner, db.Begin,
   * the version-table statement and tx.Commit. Each is asked at most once.
   */
  datatype Answers = Answers(
    script: ScriptAnswer,
    begin: Option<DbError>,
    versionExec: Option<DbError>,
    commit: CommitAnswer)

  /**
   * The error `run` returns: a script failure is wrapped ("FAIL …, quitting
   * migration"); a version-table or commit error is returned as it is.
   */
  datatype RunError = ScriptFailed(cause: DbError) | DbFailure(cause: DbError)

  /** How a run ends; `Fatal` is log.Fatal terminating the process. */
  datatype Outcome = Success | Failure(error: RunError) | Fatal

  /** The outcome together with the database as it is left. */
  datatype RunResult = RunResult(outcome: Outcome, db: Db)

  /** Direction `true` is up, `false` is down. */
  function SelectFn(m: Migration, direction: bool): Option<GoFunc> {
    if direction then m.upFn else m.downFn
  }

  /** The effects of calling the selected function; a nil function is skipped. */
  function FnEffects(fn: Option<GoFunc>): seq<Effect> {
    match fn
    case None => []
    case Some(f) => f.effects
  }

  /** The selected function returned an error; a nil function never does. */
  predicate FnFails(fn: Option<GoFunc>) {
    fn.Some? && fn.value.err.Some?
  }

  /** The applied set once `version` is marked applied (up) or unapplied (down). */
  function Toggled(applied: set<Int64>, version: Int64, direction: bool): set<Int64> {
    if direction then applied + {version} else applied - {version}
  }

  /**
   * The version-table statement of a run: up makes the version applied,
   * down makes it unapplied, and every other version keeps its state.
   */
  function VersionOp(m: Migration, direction: bool): (op: Op)
    ensures !op.Payload?
    ensures forall db :: ApplyOp(db, op).log == db.log
    ensures forall db :: AppliedVersions(ApplyOp(db, op).versionTable) == Toggled(AppliedVersions(db.versionTable), m.version, direction)
  {
    var op := if direction then InsertVersion(m.version, true) else DeleteVersion(m.version);
    assert forall db :: AppliedVersions(ApplyOp(db, op).versionTable) == Toggled(AppliedVersions(db.versionTable), m.version, direction) by {
      forall db: Db {
        AppliedAfterInsert(db.versionTable, m.version);
      }
    }
    op
  }

  /** Every statement a complete run of a Go migration issues, in order. */
  function RunOps(m: Migration, direction: bool): seq<Op> {
    Payloads(FnEffects(SelectFn(m, direction))) + [VersionOp(m, direction)]
  }

  /**
   * The NoTx path: the function runs against the live database, so its
   * effects are durable even when it fails, and the version statement runs
   * on its own afterwards.
   */
  function RunDirect(m: Migration, db: Db, direction: bool, answers: Answers): (r: RunResult)
    ensures FnFails(SelectFn(m, direction)) ==>
      r == RunResult(Fatal, Db(db.versionTable, db.log + FnEffects(SelectFn(m, direction))))
    ensures !FnFails(SelectFn(m, direction)) && answers.versionExec.Some? ==>
      r == RunResult(Failure(DbFailure(answers.versionExec.value)), Db(db.versionTable, db.log + FnEffects(SelectFn(m, direction))))
    ensures r.outcome.Success? <==> !FnFails(SelectFn(m, direction)) && answers.versionExec.None?
    ensures r.outcome.Success? ==> r.db == ApplyOps(db, RunOps(m, direction))
  {
    var fn := SelectFn(m, direction);
    var payload := Payloads(FnEffects(fn));
    ApplyPayloads(db, FnEffects(fn));
    ApplyOpsAppend(db, payload, [VersionOp(m, direction)]);
    var db1 := if fn.Some? then ApplyOps(db, payload) else db;
    if FnFails(fn) then RunResult(Fatal, db1)
    else
      match answers.versionExec
      case Some(e) => RunResult(Failure(DbFailure(e)), db1)
      case None => RunResult(Success, ApplyOp(db1, VersionOp(m, direction)))
  }

  /**
   * The transactional path: the function and the version statement run in
   * one transaction, which is rolled back on either's failure and otherwise
   * committed; the run's result is the commit's.
   */
  function RunInTx(m: Migration, db: Db, direction: bool, answers: Answers): (r: RunResult)
    ensures answers.begin.Some? ==> r == RunResult(Fatal, db)
    ensures answers.begin.None? && FnFails(SelectFn(m, direction)) ==> r == RunResult(Fatal, db)
    ensures answers.begin.None? && !FnFails(SelectFn(m, direction)) && answers.versionExec.Some? ==>
      r == RunResult(Failure(DbFailure(answers.versionExec.value)), db)
    ensures r.outcome.Success? <==>
      answers.begin.None? && !FnFails(SelectFn(m, direction)) && answers.versionExec.None? && answers.commit.Committed?
    ensures r.outcome.Success? ==> r.db == ApplyOps(db, RunOps(m, direction))
    ensures answers.begin.None? && !FnFails(SelectFn(m, direction)) && answers.versionExec.None? && answers.commit.CommitFailed? ==>
      r.outcome == Failure(DbFailure(answers.commit.err))
    ensures r.db == db || r.db == ApplyOps(db, RunOps(m, direction))
  {
    match answers.begin
    case Some(_) => RunResult(Fatal, db)
    case None =>
      var fn := SelectFn(m, direction);
      var tx := if fn.Some? then ExecInTx(Begin(), Payloads(FnEffects(fn))) else Begin();
      assert tx.pending == Payloads(FnEffects(fn));
      if FnFails(fn) then RunResult(Fatal, Rollback(db, tx))
      else
        match answers.versionExec
        case Some(e) => RunResult(Failure(DbFailure(e)), Rollback(db, tx))
        case None =>
          var tx' := ExecInTx(tx, [VersionOp(m, direction)]);
          match answers.commit
          case Committed => RunResult(Success, Commit(db, tx'))
          case CommitFailed(e, persisted) => RunResult(Failure(DbFailure(e)), if persisted then Commit(db, tx') else db)
  }

  /**
   * Migration.run: a ".sql" source goes to the SQL-script runner, whose
   * error is wrapped; a ".go" source must be registered and then runs its
   * selected function with or without a transaction; any other source is
   * left alone and the run succeeds.
   */
  function Run(m: Migration, db: Db, direction: bool, answers: Answers): (r: RunResult)
    ensures Ext(m.source) != SqlExt && Ext(m.source) != GoExt ==> r == RunResult(Success, db)
    ensures Ext(m.source) == GoExt && !m.registered ==> r == RunResult(Fatal, db)
    ensures Ext(m.source) == SqlExt ==>
      && r.db == answers.script.after
      && (r.outcome.Success? <==> answers.script.err.None?)
      && (answers.script.err.Some? ==> r.outcome == Failure(ScriptFailed(answers.script.err.value)))
    ensures Ext(m.source) == GoExt && r.outcome.Success? ==> r.db == ApplyOps(db, RunOps(m, direction))
  {
    var ext := Ext(m.source);
    if ext == SqlExt then
      match answers.script.err
      case Some(e) => RunResult(Failure(ScriptFailed(e)), answers.script.after)
      case None => RunResult(Success, answers.script.after)
    else if ext == GoExt then
      if !m.registered then RunResult(Fatal, db)
      else if m.noTx then RunDirect(m, db, direction, answers)
      else RunInTx(m, db, direction, answers)
    else RunResult(Success, db)
  }

  /** A complete run logs the function's effects and then applies the version statement. */
  lemma RunOpsEffect(m: Migration, db: Db, direction: bool)
    ensures ApplyOps(db, RunOps(m, direction))
      == ApplyOp(Db(db.versionTable, db.log + FnEffects(SelectFn(m, direction))), VersionOp(m, direction))
  {
    var payload := Payloads(FnEffects(SelectFn(m, direction)));
    ApplyOpsAppend(db, payload, [VersionOp(m, direction)]);
    ApplyPayloads(db, FnEffects(SelectFn(m, direction)));
    var db1 := ApplyOps(db, payload);
    assert ApplyOps(db1, [VersionOp(m, direction)]) == ApplyOps(ApplyOp(db1, VersionOp(m, direction)), []);
  }

  /**
   * A successful run of a Go migration, in either mode, appends exactly the
   * selected function's effects to the log; up appends an applied row for
   * the version, down removes the version from the applied set and leaves
   * every other version as it was.
   */
  lemma RunSuccessEffects(m: Migration, db: Db, direction: bool, answers: Answers)
    requires Ext(m.source) == GoExt && Run(m, db, direction, answers).outcome.Success?
    ensures var db' := Run(m, db, direction, answers).db;
      && db'.log == db.log + FnEffects(SelectFn(m, direction))
      && (direction ==> db'.versionTable == db.versionTable + [MigrationRecord(m.version, true)])
      && (direction ==> AppliedVersions(db'.versionTable) == AppliedVersions(db.versionTable) + {m.version})
      && (!direction ==> db'.versionTable == WithoutVersion(db.versionTable, m.version))
      && (!direction ==> AppliedVersions(db'.versionTable) == AppliedVersions(db.versionTable) - {m.version})
  {
    RunOpsEffect(m, db, direction);
    if direction {
      AppliedAfterInsert(db.versionTable, m.version);
    }
  }

  /** Migration.Up: the run in the up direction (the "OK" log line is not modelled). */
  function Up(m: Migration, db: Db, answers: Answers): (r: RunResult)
    ensures Ext(m.source) == GoExt && r.outcome.Success? ==>
      && m.version in AppliedVersions(r.db.versionTable)
      && r.db.versionTable == db.versionTable + [MigrationRecord(m.version, true)]
      && r.db.log == db.log + FnEffects(m.upFn)
  {
    var r := Run(m, db, true, answers);
    if Ext(m.source) == GoExt && r.outcome.Success? then
      RunSuccessEffects(m, db, true, answers);
      r
    else
      r
  }

  /** Migration.Down: the run in the down direction (the "OK" log line is not modelled). */
  function Down(m: Migration, db: Db, answers: Answers): (r: RunResult)
    ensures Ext(m.source) == GoExt && r.outcome.Success? ==>
      && m.version !in AppliedVersions(r.db.versionTable)
      && AppliedVersions(r.db.versionTable) == AppliedVersions(db.versionTable) - {m.version}
      && r.db.versionTable == WithoutVersion(db.versionTable, m.version)
      && r.db.log == db.log + FnEffects(m.downFn)
  {
    var r := Run(m, db, false, answers);
    if Ext(m.source) == GoExt && r.outcome.Success? then
      RunSuccessEffects(m, db, false, answers);
      r
    else
      r
  }

  /**
   * Applying a Go migration up and then down leaves the version table without
   * any row of its version and the log holding the up effects followed by
   * the down effects; when the table had no row of that version before, it
   * is restored exactly.
   */
  lemma UpThenDown(m: Migration, db: Db, up: Answers, down: Answers)
    requires Ext(m.source) == GoExt
    requires Up(m, db, up).outcome.Success?
    requires Down(m, Up(m, db, up).db, down).outcome.Success?
    ensures var final := Down(m, Up(m, db, up).db, down).db;
      && final.versionTable == WithoutVersion(db.versionTable, m.version)
      && final.log == db.log + FnEffects(m.upFn) + FnEffects(m.downFn)
      && ((forall r :: r in db.versionTable ==> r.versionId != m.version) ==> final.versionTable == db.versionTable)
  {
    var mid := Up(m, db, up).db;
    var final := Down(m, mid, down).db;
    assert mid.versionTable == db.versionTable + [MigrationRecord(m.version, true)];
    assert mid.log == db.log + FnEffects(m.upFn);
    assert final.versionTable == WithoutVersion(mid.versionTable, m.version);
    assert final.log == mid.log + FnEffects(m.downFn);
    WithoutVersionAfterInsert(db.versionTable, m.version, true);
    if forall r :: r in db.versionTable ==> r.versionId != m.version {
      WithoutAbsentVersion(db.versionTable, m.version);
    }
  }

  /**
   * When nothing fails, running a registered Go migration inside a
   * transaction and running it directly leave the same database.
   */
  lemma TxAndDirectAgree(m: Migration, db: Db, direction: bool, answers: Answers)
    requires Ext(m.source) == GoExt && m.registered
    requires answers.begin.None? && answers.versionExec.None? && answers.commit.Committed?
    requires !FnFails(SelectFn(m, direction))
    ensures Run(m.(noTx := true), db, direction, answers) == Run(m.(noTx := false), db, direction, answers)
    ensures Run(m, db, direction, answers) == RunResult(Success, ApplyOps(db, RunOps(m, direction)))
  {
  }
}
