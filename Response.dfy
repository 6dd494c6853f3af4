/**
 * The uniform handler result: `ResponseBase<T>` carries an optional error
 * (`ResponseInfo`: title, description, HTTP status) and an optional value.
 * `Outcome` adds what the C# code does by throwing: a fault that escapes the
 * handler instead of a response.
 */
module Response {
  import opened Wrappers

  datatype ResponseInfo = ResponseInfo(title: Option<string>, errorDescription: Option<string>, httpStatus: int)

  datatype ResponseBase<T> = ResponseBase(responseInfo: Option<ResponseInfo>, value: Option<T>)

  /** How a caller tells an error response from a success: `ResponseInfo` is set. */
  predicate IsFailure<T>(r: ResponseBase<T>)
  {
    r.responseInfo.Some?
  }

  /** A business failure: error info set, `Value` null. */
  function Failure<T>(title: string, description: string, status: int): (r: ResponseBase<T>)
    ensures IsFailure(r) && r.value.None? && r.responseInfo.value.httpStatus == status
  {
    ResponseBase(Some(ResponseInfo(Some(title), Some(description), status)), None)
  }

  /** A success: `ResponseInfo` null. */
  function Success<T>(v: T): (r: ResponseBase<T>)
    ensures !IsFailure(r) && r.value == Some(v)
  {
    ResponseBase(None, Some(v))
  }

  /** Exceptions that escape a handler: a null argument reaching a library call, or
      `SaveChanges` rejecting the staged changes. */
  datatype Fault = NullArgument | CommitRejected

  datatype Outcome<T> = Completed(response: ResponseBase<T>) | Faulted(fault: Fault)
}
