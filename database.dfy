/** The database connection as this layer sees it: an oracle whose answers
    are inputs, and a log of the calls made on it, in order. */
module Database {
  import opened Types

  /** The columns of one `questions` row, in the order CreateQuestion inserts
      them and ReadQuestion scans them; each `paramsN` is a joined list. */
  datatype QuestionRow = QuestionRow(
    id: Uuid,
    title: string,
    description: string,
    date: string,
    level: string,
    params1: string,
    response1: string,
    params2: string,
    response2: string,
    params3: string,
    response3: string)

  /** The statements this layer executes, with their arguments. A nil
      `*string` nickname is `None`. */
  datatype Statement =
    | InsertQuestion(row: QuestionRow)
    | InsertUser(nickname: string, email: string, password: string)
    | InsertAnswer(id: Uuid, nickname: string, questionId: Uuid, status: string, createdAt: nat)
    | DeleteQuestionById(questionId: Uuid)
    | DeleteUserByNickname(userNickname: Option<string>)
    | DeleteAnswerById(answerId: Uuid)

  /** A call this layer makes on the database. */
  datatype Call = BeginCall | ExecCall(stmt: Statement) | CommitCall | RollbackCall

  /** What the database answers to each call of one transactional delete. */
  datatype DbAnswers = DbAnswers(begin: GoError, exec: GoError, commit: GoError, rollback: GoError)

  /** The connection (`*sql.DB`): the calls made on it so far. */
  class Conn {
    var log: seq<Call>

    constructor ()
      ensures log == []
    {
      log := [];
    }

    /** `conn.Exec(...)` outside a transaction; `answer` is the database's reply. */
    method Exec(stmt: Statement, answer: GoError) returns (err: GoError)
      modifies this
      ensures log == old(log) + [ExecCall(stmt)]
      ensures err == answer
    {
      log := log + [ExecCall(stmt)];
      err := answer;
    }

    /** `conn.Begin()`: a transaction when the database accepts, else its error. */
    method Begin(db: DbAnswers) returns (tx: Tx?, err: GoError)
      modifies this
      ensures log == old(log) + [BeginCall]
      ensures err == db.begin
      ensures tx == null <==> db.begin.Some?
      ensures tx != null ==> fresh(tx) && tx.conn == this && tx.db == db && !tx.done
    {
      log := log + [BeginCall];
      err := db.begin;
      if err.Some? {
        tx := null;
      } else {
        tx := new Tx(this, db);
      }
    }
  }

  /** A transaction (`*sql.Tx`) on `conn`; `db` holds the database's answers.
      It is `done` once committed or rolled back, after which it takes no
      further statement, Commit or Rollback. */
  class Tx {
    const conn: Conn
    const db: DbAnswers
    var done: bool

    constructor (conn: Conn, db: DbAnswers)
      ensures this.conn == conn && this.db == db && !done
    {
      this.conn := conn;
      this.db := db;
      done := false;
    }

    method Exec(stmt: Statement) returns (err: GoError)
      requires !done
      modifies conn
      ensures conn.log == old(conn.log) + [ExecCall(stmt)]
      ensures err == db.exec
    {
      conn.log := conn.log + [ExecCall(stmt)];
      err := db.exec;
    }

    method Commit() returns (err: GoError)
      requires !done
      modifies this, conn
      ensures done
      ensures conn.log == old(conn.log) + [CommitCall]
      ensures err == db.commit
    {
      conn.log := conn.log + [CommitCall];
      done := true;
      err := db.commit;
    }

    method Rollback() returns (err: GoError)
      requires !done
      modifies this, conn
      ensures done
      ensures conn.log == old(conn.log) + [RollbackCall]
      ensures err == db.rollback
    {
      conn.log := conn.log + [RollbackCall];
      done := true;
      err := db.rollback;
    }
  }
}
