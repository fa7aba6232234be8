/** The `Postgres` repository: the operations on questions, users and
    answers. Writes go through the recorded connection; each read is a
    function of what its `QueryRow(...).Scan(...)` produced. */
module Repository {
  import opened Types
  import opened ParamsCodec
  import opened Database
  import opened Transactions

  /** The columns `CreateQuestion` inserts: each test's parameters joined with ",". */
  function QuestionColumns(q: Question): QuestionRow {
    QuestionRow(
      q.id, q.title, q.description, q.date, q.level,
      Join(q.inputs.test1.params), q.inputs.test1.response,
      Join(q.inputs.test2.params), q.inputs.test2.response,
      Join(q.inputs.test3.params), q.inputs.test3.response)
  }

  /** The question `ReadQuestion` builds from a scanned row: each params
      column split on ",". */
  function RowQuestion(row: QuestionRow): Question {
    Question(
      row.id, row.title, row.description, row.date, row.level,
      Inputs(
        Test(Split(row.params1), row.response1),
        Test(Split(row.params2), row.response2),
        Test(Split(row.params3), row.response3)))
  }

  /** A question whose three parameter lists all survive storage. */
  predicate Storable(q: Question) {
    Encodable(q.inputs.test1.params) &&
    Encodable(q.inputs.test2.params) &&
    Encodable(q.inputs.test3.params)
  }

  /** `ReadQuestion`: a failed scan, "no rows" included, ends the process
      through `log.Fatal`; otherwise the decoded question comes back with a
      nil error, and every question it can return is storable. */
  function ReadQuestion(scan: Result<QuestionRow>): (r: Fetch<Question>)
    ensures r.Aborted? <==> scan.Err?
    ensures scan.Err? ==> r.cause == scan.error
    ensures r.Returned? ==> Storable(r.value)
    ensures r.Returned? ==> r.value.id == scan.value.id && r.value.date == scan.value.date
  {
    match scan
    case Err(e) => Aborted(e)
    case Ok(row) => Returned(RowQuestion(row))
  }

  /** Reading back the row `CreateQuestion` stored gives the same question
      exactly when the question is storable. */
  lemma ReadAfterCreate(q: Question)
    ensures ReadQuestion(Ok(QuestionColumns(q))) == Returned(q) <==> Storable(q)
  {
    RoundTripIff(q.inputs.test1.params);
    RoundTripIff(q.inputs.test2.params);
    RoundTripIff(q.inputs.test3.params);
  }

  /** Every row that can be read stores back unchanged: decode-then-encode is
      the identity on the columns. */
  lemma CreateAfterRead(row: QuestionRow)
    ensures ReadQuestion(Ok(row)).Returned?
    ensures QuestionColumns(ReadQuestion(Ok(row)).value) == row
  {
    JoinSplit(row.params1);
    JoinSplit(row.params2);
    JoinSplit(row.params3);
  }

  /** The columns `ReadUser` scans; the password is not among them. */
  datatype UserRow = UserRow(id: int, nickname: string, email: string)

  /** `ReadUser`: a failed scan ends the process through `log.Fatal`;
      otherwise the user comes back with an empty password. */
  function ReadUser(scan: Result<UserRow>): (r: Fetch<User>)
    ensures r.Aborted? <==> scan.Err?
    ensures scan.Err? ==> r.cause == scan.error
    ensures r.Returned? ==>
      r.value.password == "" &&
      r.value.id == scan.value.id && r.value.nickname == scan.value.nickname &&
      r.value.email == scan.value.email
  {
    match scan
    case Err(e) => Aborted(e)
    case Ok(row) => Returned(User(row.id, row.nickname, row.email, ""))
  }

  /** The error `VerifyLogin` builds when the stored password differs. */
  const WrongCredentials: Error := Errorf("nickname or password wrong")

  /** `VerifyLogin`: `lookup` is the stored password found for the user's
      nickname, or the lookup's error. */
  function VerifyLogin(user: User, lookup: Result<string>): (err: GoError)
    ensures err == None <==> lookup.Ok? && lookup.value == user.password
    ensures lookup.Err? ==> err == Some(lookup.error)
    ensures lookup.Ok? && lookup.value != user.password ==> err == Some(WrongCredentials)
  {
    match lookup
    case Err(e) => Some(e)
    case Ok(password) =>
      if password == user.password then None else Some(WrongCredentials)
  }

  /** Only the password takes part in the decision: id and email are
      ignored, and the nickname matters only through the lookup. */
  lemma VerifyLoginReadsOnlyPassword(user: User, other: User, lookup: Result<string>)
    requires other.password == user.password
    ensures VerifyLogin(other, lookup) == VerifyLogin(user, lookup)
  {
  }

  /** An unknown nickname and a wrong password fail with different errors,
      so a caller can tell which nicknames exist. */
  lemma UnknownNicknameIsDistinguishable(user: User, stored: string)
    requires stored != user.password
    ensures VerifyLogin(user, Err(ErrNoRows)) == Some(ErrNoRows)
    ensures VerifyLogin(user, Err(ErrNoRows)) != VerifyLogin(user, Ok(stored))
  {
  }

  /** The columns `VerifyAnswer` scans from the latest matching answer. */
  datatype AnswerRow = AnswerRow(nickname: string, status: string, createdAt: nat)

  /** `VerifyAnswer`: "no rows" is not an error and yields the zero answer;
      any other failed scan ends the process through `log.Fatal`. The answer's
      id and question id are never scanned, so they stay zero. */
  function VerifyAnswer(lookup: Result<AnswerRow>): (r: Fetch<Answer>)
    ensures r.Aborted? <==> lookup.Err? && lookup.error != ErrNoRows
    ensures r.Aborted? ==> r.cause == lookup.error
    ensures lookup == Err(ErrNoRows) ==> r == Returned(ZeroAnswer)
    ensures r.Returned? ==> r.value.id == NilUuid && r.value.questionId == NilUuid
    ensures lookup.Ok? ==>
      r.Returned? && r.value.nickname == lookup.value.nickname &&
      r.value.status == lookup.value.status && r.value.createdAt == lookup.value.createdAt
  {
    var answer := ZeroAnswer;
    match lookup
    case Ok(row) =>
      Returned(answer.(nickname := row.nickname, status := row.status, createdAt := row.createdAt))
    case Err(e) =>
      if e == ErrNoRows then Returned(answer) else Aborted(e)
  }

  /** The repository object: its only state is the connection. */
  class Postgres {
    const conn: Conn

    constructor (conn: Conn)
      ensures this.conn == conn
    {
      this.conn := conn;
    }

    /** Inserts the question's columns; the insert's error comes back unchanged. */
    method CreateQuestion(q: Question, answer: GoError) returns (err: GoError)
      modifies conn
      ensures conn.log == old(conn.log) + [ExecCall(InsertQuestion(QuestionColumns(q)))]
      ensures err == answer
    {
      err := conn.Exec(InsertQuestion(QuestionColumns(q)), answer);
    }

    /** A no-op: succeeds and touches neither the object nor the database. */
    method UpdateQuestion(id: Uuid) returns (err: GoError)
      ensures err == None
    {
      return None;
    }

    method DeleteQuestion(id: Uuid, db: DbAnswers) returns (err: GoError)
      modifies conn
      ensures err == DeleteTrace(DeleteQuestionById(id), db).returned
      ensures conn.log == old(conn.log) + DeleteTrace(DeleteQuestionById(id), db).calls
    {
      err := TransactionalDelete(conn, DeleteQuestionById(id), db);
    }

    /** Inserts nickname, email and password; the id is left to the database. */
    method CreateUser(user: User, answer: GoError) returns (err: GoError)
      modifies conn
      ensures conn.log == old(conn.log) + [ExecCall(InsertUser(user.nickname, user.email, user.password))]
      ensures err == answer
    {
      err := conn.Exec(InsertUser(user.nickname, user.email, user.password), answer);
    }

    /** A no-op: succeeds and touches neither the object nor the database. */
    method UpdateUser(id: Option<int>) returns (err: GoError)
      ensures err == None
    {
      return None;
    }

    method DeleteUser(nickname: Option<string>, db: DbAnswers) returns (err: GoError)
      modifies conn
      ensures err == DeleteTrace(DeleteUserByNickname(nickname), db).returned
      ensures conn.log == old(conn.log) + DeleteTrace(DeleteUserByNickname(nickname), db).calls
    {
      err := TransactionalDelete(conn, DeleteUserByNickname(nickname), db);
    }

    method CreateAnswer(a: Answer, answer: GoError) returns (err: GoError)
      modifies conn
      ensures conn.log == old(conn.log) + [ExecCall(InsertAnswer(a.id, a.nickname, a.questionId, a.status, a.createdAt))]
      ensures err == answer
    {
      err := conn.Exec(InsertAnswer(a.id, a.nickname, a.questionId, a.status, a.createdAt), answer);
    }

    method DeleteAnswer(id: Uuid, db: DbAnswers) returns (err: GoError)
      modifies conn
      ensures err == DeleteTrace(DeleteAnswerById(id), db).returned
      ensures conn.log == old(conn.log) + DeleteTrace(DeleteAnswerById(id), db).calls
    {
      err := TransactionalDelete(conn, DeleteAnswerById(id), db);
    }
  }
}
