/** The outcome of a request handler, and the query parameters it reads. */
module Http {
  import opened Wrappers

  /** A success status with a value, or an error status with the handler's message. */
  datatype Outcome<T> = Success(code: nat, value: T) | Failure(code: nat, message: string)

  /** `if param:` on a query parameter: present and not empty. */
  predicate Given(p: Option<string>) {
    p.Some? && p.value != []
  }
}
