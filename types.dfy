/** Values shared by the repository layer: Go's `error` and nil, the outcomes
    the database hands back, and the three persisted entities. */
module Types {

  datatype Option<T> = None | Some(value: T)

  /** The errors this layer can see. `ErrNoRows` is database/sql's sentinel
      for a single-row query that found nothing; `Driver` stands for any other
      error the driver or the database reports; `Errorf` is an error built by
      `fmt.Errorf` inside this layer. */
  datatype Error = ErrNoRows | Driver(detail: string) | Errorf(msg: string)

  /** A Go `error` value: `None` is nil. */
  type GoError = Option<Error>

  /** The outcome of a `QueryRow(...).Scan(...)`: the scanned columns or an error. */
  datatype Result<T> = Ok(value: T) | Err(error: Error)

  /** How a read that calls `log.Fatal` on failure ends: it either returns a
      value together with a nil error, or the process exits with the cause. */
  datatype Fetch<T> = Returned(value: T) | Aborted(cause: Error)

  /** A 128-bit UUID; its zero value is the nil UUID. */
  datatype Uuid = Uuid(hi: bv64, lo: bv64)

  const NilUuid: Uuid := Uuid(0, 0)

  /** One test case of a question: the parameters handed to the solution and
      the response expected from it. */
  datatype Test = Test(params: seq<string>, response: string)

  datatype Inputs = Inputs(test1: Test, test2: Test, test3: Test)

  datatype Question = Question(
    id: Uuid,
    title: string,
    description: string,
    date: string,
    level: string,
    inputs: Inputs)

  datatype User = User(id: int, nickname: string, email: string, password: string)

  /** `createdAt` counts time from Go's zero time, so its zero value is 0. */
  datatype Answer = Answer(
    id: Uuid,
    nickname: string,
    questionId: Uuid,
    status: string,
    createdAt: nat)

  /** The zero value of an Answer, as `var answerResponse types.Answer` declares it. */
  const ZeroAnswer: Answer := Answer(NilUuid, "", NilUuid, "", 0)
}
