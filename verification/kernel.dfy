/**
 * The outcome kernel shared by every service: the `Error` value, the
 * `Result<T>` outcome with its constructor-enforced success/errors invariant,
 * and the transport-level `ApiResponse<T>` envelope.
 *
 * Exceptions thrown by the application code are modelled as the `Raised`
 * alternative of `Outcome<T>`, so that a flow either returns a `Result` or
 * raises one of the exception kinds below.
 */
module Kernel {

  /** A nullable reference: `None` is the source's `null`. */
  datatype Option<+T> = None | Some(value: T) {

    /** The source's `a ?? b`. */
    function OrElse(default: T): (r: T)
      ensures Some? ==> r == value
      ensures None? ==> r == default
    {
      match this
      case Some(v) => v
      case None => default
    }
  }

  /** A failure cause: a stable code and a human-readable message. */
  datatype Error = Error(code: string, message: string)

  /** The exception kinds the modelled code can throw. */
  datatype Exception =
    | InvalidArgument   // ArgumentException from Result's constructor
    | NullDereference   // NullReferenceException from a `!`-suppressed null
    | NullArgument      // ArgumentNullException from a framework call given null
    | BadFormat         // FormatException from Boolean.Parse / DateOnly.Parse

  /** The raw shape of a `Result<T>`: success flag, errors, payload and status. */
  datatype ResultRecord<+T> = ResultRecord(isSuccess: bool, errors: seq<Error>, data: Option<T>, status: int) {

    /** Success holds exactly when there are no errors. */
    predicate Coherent() {
      isSuccess <==> |errors| == 0
    }

    predicate IsFailure() {
      !isSuccess
    }
  }

  /** Only coherent records can ever be constructed. */
  type Result<T> = r: ResultRecord<T> | r.Coherent() witness ResultRecord(true, [], None, 0)

  /** What a call of the application code produces: a result, or a thrown exception. */
  datatype Outcome<T> = Returned(result: Result<T>) | Raised(exception: Exception) {

    /** The returned status, when a result was returned. */
    predicate HasStatus(status: int) {
      Returned? && result.status == status
    }

    /** A returned failure with exactly these errors and this status. */
    predicate FailedWith(errors: seq<Error>, status: int) {
      Returned? && !result.isSuccess && result.errors == errors && result.status == status
    }

    /** A returned success with this status. */
    predicate SucceededWith(status: int) {
      Returned? && result.isSuccess && result.status == status
    }
  }

  /**
   * The private constructor of `Result<T>`: it throws an ArgumentException
   * when the success flag disagrees with the emptiness of the error list, and
   * otherwise stores every argument verbatim (the status is never checked).
   */
  function NewResult<T>(isSuccess: bool, errors: seq<Error>, data: Option<T>, status: int): (o: Outcome<T>)
    ensures o.Raised? <==> (isSuccess && |errors| > 0) || (!isSuccess && |errors| == 0)
    ensures o.Raised? ==> o.exception == InvalidArgument
    ensures o.Returned? ==> o.result == ResultRecord(isSuccess, errors, data, status)
  {
    if (isSuccess && |errors| > 0) || (!isSuccess && |errors| == 0) then
      Raised(InvalidArgument)
    else
      Returned(ResultRecord(isSuccess, errors, data, status))
  }

  /** `Result<T>.Success(data, status)`: never throws. */
  function Success<T>(data: Option<T>, status: int): (r: Result<T>)
    ensures NewResult(true, [], data, status) == Returned(r)
    ensures r.isSuccess && !r.IsFailure() && r.errors == [] && r.data == data && r.status == status
  {
    ResultRecord(true, [], data, status)
  }

  /** `Result<T>.Failure(errors, status)`: throws exactly when `errors` is empty. */
  function Failure<T>(errors: seq<Error>, status: int): (o: Outcome<T>)
    ensures o.Raised? <==> errors == []
    ensures o.Raised? ==> o.exception == InvalidArgument
    ensures o.Returned? ==> o.FailedWith(errors, status) && o.result.data == None && o.result.IsFailure()
  {
    NewResult(false, errors, None, status)
  }

  /** Every result that exists satisfies the constructor's invariant, and IsFailure negates IsSuccess. */
  lemma ResultInvariant<T>(r: Result<T>)
    ensures r.isSuccess <==> r.errors == []
    ensures r.IsFailure() <==> !r.isSuccess
  {
  }

  /** The constructor rejects both incoherent combinations, whatever the payload and status. */
  lemma IncoherentResultsThrow<T>(errors: seq<Error>, data: Option<T>, status: int)
    ensures errors != [] ==> NewResult(true, errors, data, status) == Raised(InvalidArgument)
    ensures errors == [] ==> NewResult(false, errors, data, status) == Raised(InvalidArgument)
  {
  }

  /** `new ApiResponse<T>(isSuccess, data, message, errors)`: a null error list becomes empty. */
  datatype ApiResponse<+T> = ApiResponse(isSuccess: bool, data: Option<T>, message: string, errors: seq<Error>)

  function NewApiResponse<T>(isSuccess: bool, data: Option<T>, message: string, errors: Option<seq<Error>>): (r: ApiResponse<T>)
    ensures r.isSuccess == isSuccess && r.data == data && r.message == message
    ensures errors.None? ==> r.errors == []
    ensures errors.Some? ==> r.errors == errors.value
  {
    ApiResponse(isSuccess, data, message, errors.OrElse([]))
  }

  /** `ApiResponse<T>.SuccessResponse(data, message)`. */
  function SuccessResponse<T>(data: T, message: string): (r: ApiResponse<T>)
    ensures r == NewApiResponse(true, Some(data), message, Some([]))
    ensures r.isSuccess && r.data == Some(data) && r.message == message && r.errors == []
  {
    NewApiResponse(true, Some(data), message, Some([]))
  }

  /** `ApiResponse<T>.FailureResponse(errors, message)`: the payload is the default (null). */
  function FailureResponse<T>(errors: seq<Error>, message: string): (r: ApiResponse<T>)
    ensures r == NewApiResponse(false, None, message, Some(errors))
    ensures !r.isSuccess && r.data == None && r.message == message && r.errors == errors
  {
    NewApiResponse(false, None, message, Some(errors))
  }

  /**
   * Unlike `Result<T>`, the envelope keeps no success/errors invariant: a
   * failure with no errors is constructible, while `Failure([], s)` throws.
   */
  lemma ApiResponseAdmitsEmptyFailure<T>(message: string, status: int)
    ensures var r := FailureResponse<T>([], message); !r.isSuccess && r.errors == []
    ensures Failure<T>([], status) == Raised(InvalidArgument)
  {
  }
}
