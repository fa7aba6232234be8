# Postgres repository of hackagon-bot, modelled in Dafny

`repository/postgres.go` is the data-access layer of the bot. It gives
create/read/update/delete operations for questions, users and answers over
`database/sql`. The SQL runs in a database engine this model cannot see. So
the database is an oracle here: what Begin, Exec, Commit, Rollback and
`QueryRow(...).Scan(...)` answer is an input to each operation. Three pieces
of logic in the file have behaviour of their own, and the model proves
properties of each:

- **The parameter codec.** Each test's parameter list is stored as
  `strings.Join(params, ",")` and read back with `strings.Split(column, ",")`.
  `ParamsCodec` models both with Go's semantics. It proves the following.
  The round trip holds exactly for non-empty lists whose elements hold no
  comma. Decode-then-encode is the identity on every string. The empty list
  comes back as `[""]`. A decoded list has one element more than the column
  has commas.
- **The transactional delete.** `DeleteQuestion`, `DeleteUser` and
  `DeleteAnswer` share one shape: Begin, one Exec, then a deferred Commit
  or Rollback. `Transactions.TransactionalDelete` is an imperative method
  over a connection object that logs every call (`Database.Conn`,
  `Database.Tx`). It keeps Go's local `err`, which the deferred closure
  reassigns. The function's result is not named, so the value returned is
  fixed before the closure runs. As a consequence a failing Commit after a
  successful Exec still returns nil. The model keeps this behaviour as
  written and proves it (`ReturnedIgnoresCommitAndRollback`).
- **The read decisions.**
  - `ReadQuestion` and `ReadUser` end the process through `log.Fatal` on
    any scan error, "no rows" included. This is modelled as
    `Fetch.Aborted`.
  - `VerifyLogin` compares the stored password with the supplied one by
    exact equality. A failed lookup returns its own error. A lookup for an
    unknown nickname therefore fails differently from a wrong password.
  - `VerifyAnswer` turns "no rows" into the zero answer with a nil error.
    It never fills in the answer's id or question id.
  - `UpdateQuestion` and `UpdateUser` do nothing and return nil.

Go's `error` is `Option<Error>` (`None` is nil). The `types` package is not
part of this model. The field types of `Question`, `User` and `Answer` are
chosen in `Types`: text fields are strings, a UUID is two 64-bit words, and
a timestamp is a natural number counted from Go's zero time.

## Model

| member | source | states |
|---|---|---|
| `ParamsCodec.Join` | repository/postgres.go:47-49 | a joined column is as long as its elements together plus one comma between each adjacent pair; the empty list gives "" |
| `ParamsCodec.Split` | repository/postgres.go:83-85 | a decoded list has at least one element, and no element contains "," |
| `ParamsCodec.SplitJoin` | repository/postgres.go:47-85 | decoding an encoded list gives it back when the list is non-empty and comma-free |
| `ParamsCodec.RoundTripIff` | repository/postgres.go:47-85 | the round trip holds if and only if the list is non-empty and no element contains "," |
| `ParamsCodec.EmptyListComesBackAsOneEmptyParam` | repository/postgres.go:47-85 | the empty list is stored as "" and read back as [""], not as the empty list |
| `ParamsCodec.JoinSplit` | repository/postgres.go:47-85 | encoding the split of any stored column gives back exactly that column |
| `ParamsCodec.SplitLength` | repository/postgres.go:83-85 | a decoded list's length is one plus the number of commas in the column |
| `ParamsCodec.JoinCount` | repository/postgres.go:47-49 | a joined column holds one comma between each pair of elements plus every comma inside them |
| `ParamsCodec.SplitJoinLength` | repository/postgres.go:47-85 | each comma inside a parameter adds one element on the way back; a non-empty list comes back longer if and only if some element has a comma |
| `Database.Conn.Exec` | repository/postgres.go:52 | an Exec outside a transaction is logged and returns the database's error unchanged |
| `Database.Conn.Begin` | repository/postgres.go:95-98 | Begin is logged; it yields a fresh, unfinished transaction exactly when the database reports no error |
| `Database.Tx.Exec` | repository/postgres.go:111 | the delete statement on an unfinished transaction is logged and the database's answer returned |
| `Database.Tx.Commit` | repository/postgres.go:107 | Commit on an unfinished transaction is logged, finishes it, and returns the database's answer |
| `Database.Tx.Rollback` | repository/postgres.go:105 | Rollback on an unfinished transaction is logged, finishes it, and returns the database's answer |
| `Transactions.DeleteTrace` | repository/postgres.go:94-117 | three outcomes: Begin fails, so its error is returned and nothing else runs; Exec fails, so its error is returned, Rollback runs once and Commit never; Exec succeeds, so nil is returned, Commit runs once and Rollback never |
| `Transactions.TransactionalDelete` | repository/postgres.go:95-116 | returns the error and appends to the connection log exactly the calls `DeleteTrace` promises, with the deferred closure reassigning the local `err` |
| `Transactions.ReturnedIgnoresCommitAndRollback` | repository/postgres.go:104-116 | the returned error depends on neither Commit's nor Rollback's answer, so a failed Commit after a successful Exec still returns nil |
| `Repository.ReadQuestion` | repository/postgres.go:56-88 | a scan error, "no rows" included, aborts with that error; otherwise the question is returned and all its parameter lists are storable |
| `Repository.ReadAfterCreate` | repository/postgres.go:45-88 | reading back the columns CreateQuestion stored gives the same question if and only if all three parameter lists are storable |
| `Repository.CreateAfterRead` | repository/postgres.go:45-88 | every scanned row decodes, and re-encoding the decoded question gives the same columns |
| `Repository.ReadUser` | repository/postgres.go:125-140 | a scan error aborts with that error; otherwise the user carries the scanned id, nickname and email and an empty password |
| `Repository.VerifyLogin` | repository/postgres.go:171-189 | nil if and only if the lookup succeeds and the stored password equals the supplied one; a lookup error is returned unchanged; a mismatch returns "nickname or password wrong" |
| `Repository.VerifyLoginReadsOnlyPassword` | repository/postgres.go:176-181 | of the supplied user, only the password takes part in the decision |
| `Repository.UnknownNicknameIsDistinguishable` | repository/postgres.go:176-185 | an unknown nickname fails with "no rows", which differs from the wrong-password error |
| `Repository.VerifyAnswer` | repository/postgres.go:222-244 | "no rows" gives the zero answer with no error; any other scan error aborts; a found answer carries the scanned nickname, status and time; id and question id are always zero |
| `Repository.Postgres.constructor` | repository/postgres.go:16-18 | the repository holds only its connection |
| `Repository.Postgres.CreateQuestion` | repository/postgres.go:45-54 | inserts the question with each parameter list joined by ",", and returns the insert's error unchanged |
| `Repository.Postgres.UpdateQuestion` | repository/postgres.go:90-92 | always returns nil and changes nothing |
| `Repository.Postgres.DeleteQuestion` | repository/postgres.go:94-117 | the transactional delete of the question by id |
| `Repository.Postgres.CreateUser` | repository/postgres.go:119-123 | inserts nickname, email and password, and returns the insert's error unchanged |
| `Repository.Postgres.UpdateUser` | repository/postgres.go:142-144 | always returns nil and changes nothing |
| `Repository.Postgres.DeleteUser` | repository/postgres.go:146-169 | the transactional delete of the user by nickname |
| `Repository.Postgres.CreateAnswer` | repository/postgres.go:191-195 | inserts the answer's five columns, and returns the insert's error unchanged |
| `Repository.Postgres.DeleteAnswer` | repository/postgres.go:197-220 | the transactional delete of the answer by id |

## Left out

- `NewPostgres` (repository/postgres.go:20-43): configuration loading, connection-string formatting, `sql.Open` and `Ping` are I/O setup.
- The SQL statements' own meaning is left out: constraint violations on insert, the `WHERE` filters, `ORDER BY created_at DESC LIMIT 1`, unique nicknames. The database does this work, so each Exec and each scan is an input.
- The date `ReadQuestion` queries by, `time.Now().Format("2006-01-02")`, depends on the wall clock. The scan result for that query is an input instead.
- `log.Fatal` (repository/postgres.go:80, 136, 238) ends the process. It is modelled only as the `Aborted` outcome. The `return nil, err` after it (line 239) cannot run.
- The `recover()`/re-`panic` branch of the deferred closures (lines 101-103, 153-155, 204-206) is Go panic machinery. There it rolls back, then aborts again. No panic source is modelled, so the branch never runs.
- Rollback's own error is discarded by the source (`_ = tx.Rollback()`). The model logs the call and drops the answer the same way.
- The question, user and answer pointers (`*types.Question`, `*types.User`, `*types.Answer`) are taken as values. The panic a nil one causes is not modelled. It would happen at repository/postgres.go:47 (`question.Inputs`), 121 (`user.Nickname`), 176 (`user.Nickname`), 193 (`answer.ID`) and 227 (`question.ID`).
- The `ctx` parameters are never used. UUID generation, the driver's connection pooling and concurrency are also left out.
