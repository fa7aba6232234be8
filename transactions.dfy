/** The transactional delete shared by `DeleteQuestion`, `DeleteUser` and
    `DeleteAnswer`: Begin, one Exec, then a deferred Commit or Rollback. The
    database's answers to each call are inputs. */
module Transactions {
  import opened Types
  import opened Database

  /** How many times `c` occurs in `calls`. */
  function Count(calls: seq<Call>, c: Call): nat {
    multiset(calls)[c]
  }

  /** What one transactional delete returns and which calls it makes. */
  datatype Run = Run(returned: GoError, calls: seq<Call>)

  /** The outcome a transactional delete promises: if Begin fails, its error
      comes back and no statement, Commit or Rollback follows; if Exec fails,
      its error comes back and the transaction is rolled back once and never
      committed; if Exec succeeds, nil comes back and the transaction is
      committed once and never rolled back. */
  function DeleteTrace(stmt: Statement, db: DbAnswers): (run: Run)
    ensures |run.calls| >= 1 && run.calls[0] == BeginCall && Count(run.calls, BeginCall) == 1
    ensures db.begin.Some? ==>
      run.returned == db.begin && |run.calls| == 1 && Count(run.calls, ExecCall(stmt)) == 0 &&
      Count(run.calls, CommitCall) == 0 && Count(run.calls, RollbackCall) == 0
    ensures db.begin.None? ==>
      |run.calls| == 3 && run.calls[1] == ExecCall(stmt) && Count(run.calls, ExecCall(stmt)) == 1 &&
      run.returned == db.exec
    ensures db.begin.None? && db.exec.Some? ==>
      Count(run.calls, RollbackCall) == 1 && Count(run.calls, CommitCall) == 0
    ensures db.begin.None? && db.exec.None? ==>
      Count(run.calls, CommitCall) == 1 && Count(run.calls, RollbackCall) == 0
  {
    if db.begin.Some? then Run(db.begin, [BeginCall])
    else if db.exec.Some? then Run(db.exec, [BeginCall, ExecCall(stmt), RollbackCall])
    else Run(None, [BeginCall, ExecCall(stmt), CommitCall])
  }

  /** The deletes' common body. The deferred closure reads and reassigns the
      local `err`, but the function's result is not named, so the value
      returned is fixed before the closure runs: Commit's error is lost. */
  method TransactionalDelete(conn: Conn, stmt: Statement, db: DbAnswers) returns (result: GoError)
    modifies conn
    ensures result == DeleteTrace(stmt, db).returned
    ensures conn.log == old(conn.log) + DeleteTrace(stmt, db).calls
  {
    var tx, err := conn.Begin(db);
    if err.Some? {
      return err;
    }
    // From here on the deferred closure is registered; it runs after `result` is set.
    err := tx.Exec(stmt);
    if err.Some? {
      result := err;
    } else {
      result := None;
    }
    // The deferred closure.
    if err.Some? {
      var _ := tx.Rollback();
    } else {
      err := tx.Commit();
    }
  }

  /** The returned error depends on neither Commit's nor Rollback's answer:
      a failing Commit after a successful Exec still returns nil. */
  lemma ReturnedIgnoresCommitAndRollback(stmt: Statement, db: DbAnswers, commit: GoError, rollback: GoError)
    ensures DeleteTrace(stmt, db).returned == DeleteTrace(stmt, db.(commit := commit, rollback := rollback)).returned
    ensures db.begin.None? && db.exec.None? ==> DeleteTrace(stmt, db.(commit := commit)).returned == None
  {
  }
}
