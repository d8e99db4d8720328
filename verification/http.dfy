/** The shape of an HTTP handler's outcome: a status with a body or an error message. */
module Http {
  import opened Domain

  datatype Reply<T> = Success(status: int, body: T) | Failure(status: int, error: string)

  /** A handler's effect on the store together with its reply. */
  datatype Handled<T> = Handled(db: Db, reply: Reply<T>)

  const ValidationError := "Validation error"
  const InternalError := "Internal server error"
}
