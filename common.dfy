/**
 * Shared result types of the booking server: an optional value (a JavaScript
 * value that may be `undefined` or `null`) and the reply a request handler
 * sends, an HTTP status code with either the `data` payload or the `message`.
 */
module Common {

  datatype Option<+T> = None | Some(value: T)

  /** `res.status(code).json({ success, data | message })` of an Express handler. */
  datatype Reply<+T> =
    | Success(code: nat, data: T)
    | Failure(code: nat, message: string)

  const OK: nat := 200
  const CREATED: nat := 201
  const BAD_REQUEST: nat := 400
  const NOT_FOUND: nat := 404
  const CONFLICT: nat := 409
}
