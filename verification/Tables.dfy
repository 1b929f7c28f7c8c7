/** Primary keys, and the outcome of a statement against the tables. */
module Tables {
  import opened Wrappers
  import opened Json

  datatype GlobalKey = GlobalKey(project: string, name: string)

  /** `scope` is a region, a zone or a location. */
  datatype ScopedKey = ScopedKey(project: string, scope: string, name: string)

  datatype NestedKey = NestedKey(project: string, scope: string, parent: string, name: string)

  /** Server-assigned values of one request. */
  datatype Env = Env(id: string, now: string)

  /** The tables after an operation, and what the caller is told. */
  datatype Outcome<D> = Outcome(db: D, result: Result<Document>)

  /** INSERT: a taken primary key is reported before a missing parent. */
  function InsertError(taken: bool, parentExists: bool): Option<Error> {
    if taken then Some(AlreadyExists) else if !parentExists then Some(NotFound) else None
  }
}
