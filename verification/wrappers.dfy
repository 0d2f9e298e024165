/** Option, Result and the error taxonomy of the backend.

    Every service operation either returns a value or throws one of NestJS's
    HTTP exceptions; here the exception is the `Err` side of a `Result`. An
    `Err` carries no store, so a failed operation leaves the caller's store as
    it was.
 */
module Wrappers {

  /** A value that may be absent: `undefined`/`null` in the source. */
  datatype Option<+T> = None | Some(value: T) {

    /** The value, or `default` when absent. */
    function GetOr(default: T): T {
      match this
      case Some(v) => v
      case None => default
    }
  }

  /** One field of a partial update as it arrives in a request body: left
      out (`undefined`, which the store ignores), explicitly `null` (which the
      store writes, clearing a nullable column and refusing a required one),
      or given a value. */
  datatype Patch<+T> = Absent | Null | Given(value: T) {

    /** The new content of a nullable column holding `current`. */
    function Nullable(current: Option<T>): (r: Option<T>)
      ensures Absent? ==> r == current
      ensures Null? ==> r.None?
      ensures Given? ==> r == Some(value)
    {
      match this
      case Absent => current
      case Null => None
      case Given(v) => Some(v)
    }

    /** The new content of a required column holding `current`; only
        meaningful when the field is not `null`. */
    function Required(current: T): (r: T)
      ensures Given? ==> r == value
      ensures !Given? ==> r == current
    {
      if Given? then value else current
    }
  }

  /** The exceptions the services raise, one constructor per HTTP status. */
  datatype Error =
    | BadRequest(message: string)    // 400
    | Unauthorized(message: string)  // 401
    | Forbidden(message: string)     // 403
    | NotFound(message: string)      // 404
    | Conflict(message: string)      // 409
    | StoreFault(message: string)    // a store-level failure outside the taxonomy (500)

  /** The outcome of a service call: a value, or the exception it throws. */
  datatype Result<+T> = Ok(value: T) | Err(error: Error) {

    predicate IsFailure() {
      Err?
    }

    function PropagateFailure<U>(): Result<U>
      requires Err?
    {
      Err(error)
    }

    function Extract(): T
      requires Ok?
    {
      value
    }
  }
}
