/**
 * The shape of a route handler's answer: a successful body, or an HTTP
 * error status with the `error` text the handler sends.
 */
module Http {
  datatype Response<T> = Ok(body: T) | Fail(status: nat, error: string)

  const InternalError: string := "Internal server error"
}
