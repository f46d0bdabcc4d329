/** The shape of a route handler's JSON reply: a body with status 200, or an error status and message. */
module Http {
  datatype Response<T> = Ok(body: T) | Fail(status: nat, error: string)
}
