/** Types shared by every table and controller of the workout API. */
module Common {

  /** The `id` primary key every table inherits (contrib/models.py). Ids are generated by
      `uuid4()`; the model only compares them, so any countable carrier will do. */
  type Uuid = nat

  /** A wall-clock instant (`datetime.utcnow()`); it is only stored and copied. */
  type Timestamp = int

  datatype Option<+T> = None | Some(value: T)

  /** The name a failed reference resolution reports in its 400 detail. */
  datatype Reference =
    | CategoriaNome(nome: string)
    | CentroTreinamentoNome(nome: string)

  /** The HTTP failures the controllers produce. */
  datatype Error =
    | BadRequest(missing: Reference)  // 400: a name on athlete create resolves to nothing
    | NotFound                        // 404: no row with the requested id
    | Conflict(cpf: string)           // 409: the cpf already belongs to an athlete
    | InternalError                   // 500: a storage failure, or an exception nobody caught

  datatype Result<+T> = Ok(value: T) | Err(error: Error)

  /** Where, if anywhere, the storage engine fails inside the athlete-create `try` block:
      at or before the commit, or after it (refresh, re-read, building the output). */
  datatype Fault = NoFault | CommitFails | FailsAfterCommit
}
