/** The response envelope every controller sends, and the optional values the
    request bodies carry. */
module Common {

  datatype Option<+T> = None | Some(value: T)

  /** `{ success, message, data? }` with the HTTP status the controller sets. */
  datatype Reply<+T> = Reply(success: bool, status: int, message: string, data: Option<T>)

  const OK := 200
  const CREATED := 201
  const BAD_REQUEST := 400
  const NOT_FOUND := 404
  const CONFLICT := 409
  const SERVER_ERROR := 500

  /** `ApiResponse.success(res, message, data)`. */
  function Success<T>(message: string, data: T): (r: Reply<T>)
    ensures r.success && r.status == OK && r.data == Some(data)
  {
    Reply(true, OK, message, Some(data))
  }

  /** `ApiResponse.success(res, message, data, code)` with a status of its own. */
  function Created<T>(message: string, data: T): (r: Reply<T>)
    ensures r.success && r.status == CREATED && r.data == Some(data)
  {
    Reply(true, CREATED, message, Some(data))
  }

  /** `ApiResponse.success(res, message)` with no payload. */
  function SuccessNoData<T>(message: string): (r: Reply<T>)
    ensures r.success && r.status == OK && r.data.None?
  {
    Reply(true, OK, message, None)
  }

  /** `ApiResponse.validationError`, `ApiResponse.notFound` and `ApiResponse.error(res, message, code)`. */
  function Failure<T>(status: int, message: string): (r: Reply<T>)
    ensures !r.success && r.status == status && r.data.None?
  {
    Reply(false, status, message, None)
  }

  /** The status and message of a failed check, before it becomes a reply. */
  datatype Refusal = Refusal(status: int, message: string)
}
