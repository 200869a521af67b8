/** Small result types shared by every module of the model. */
module Wrappers {

  datatype Option<+T> = None | Some(value: T)

  /** The outcome of the checks a handler makes before it writes a row:
      Accept carries what is to be stored, Reject a message the handler
      sends with status 400, Crash an error the handler does not catch
      (a TypeError, or a constraint violation reported by the database),
      which the server's error middleware turns into status 500. */
  datatype Checked<+T> = Accept(value: T) | Reject(error: string) | Crash(error: string)

  /** What a route handler sends back: 201, 200, 204, 400, 404 or 500. */
  datatype Reply<+T> =
    | Created(body: T)
    | Ok(body: T)
    | NoContent
    | BadRequest(error: string)
    | NotFound(error: string)
    | Failed(error: string)
}
