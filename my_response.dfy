/** `MyResponse`: the response envelope of the data service's controllers,
    built only through its four static factories. */
module MyResponse {
  import opened Common

  /** `HttpStatus.SC_OK` and `HttpStatus.SC_BAD_REQUEST`. */
  const SC_OK: int := 200
  const SC_BAD_REQUEST: int := 400

  /** The envelope; `data` is absent where the source stores null. */
  datatype Response<T> = Response(
    isSuccess: bool,
    errors: seq<string>,
    message: string,
    statusCode: int,
    data: Option<T>)

  /** The private constructor: a null error list becomes an empty one. */
  function Make<T>(isSuccess: bool, errors: Option<seq<string>>, message: string, statusCode: int,
                   data: Option<T>): (r: Response<T>)
    ensures errors.None? ==> r.errors == []
    ensures errors.Some? ==> r.errors == errors.value
    ensures r.isSuccess == isSuccess && r.message == message && r.statusCode == statusCode && r.data == data
  {
    Response(isSuccess, if errors.Some? then errors.value else [], message, statusCode, data)
  }

  /** `success(message)`. */
  function Success<T>(message: string): (r: Response<T>)
    ensures r.isSuccess && r.statusCode == SC_OK && r.errors == [] && r.data == None
    ensures r.message == message
  {
    Make(true, Some([]), message, SC_OK, None)
  }

  /** `success(message, data)`. */
  function SuccessWithData<T>(message: string, data: T): (r: Response<T>)
    ensures r.isSuccess && r.statusCode == SC_OK && r.errors == [] && r.data == Some(data)
    ensures r.message == message
  {
    Make(true, Some([]), message, SC_OK, Some(data))
  }

  /** `error(errors, message)`. */
  function Error<T>(errors: Option<seq<string>>, message: string): (r: Response<T>)
    ensures !r.isSuccess && r.statusCode == SC_BAD_REQUEST && r.data == None
    ensures r.errors == (if errors.Some? then errors.value else [])
    ensures r.message == message
  {
    Make(false, errors, message, SC_BAD_REQUEST, None)
  }

  /** `error(errors, message, statusCode)`. */
  function ErrorWithStatus<T>(errors: Option<seq<string>>, message: string, statusCode: int): (r: Response<T>)
    ensures !r.isSuccess && r.statusCode == statusCode && r.data == None
    ensures r.errors == (if errors.Some? then errors.value else [])
    ensures r.message == message
  {
    Make(false, errors, message, statusCode, None)
  }

  /** The two-argument error factory is the three-argument one at status 400. */
  lemma ErrorIsBadRequest<T>(errors: Option<seq<string>>, message: string)
    ensures Error<T>(errors, message) == ErrorWithStatus<T>(errors, message, SC_BAD_REQUEST)
  {
  }

  /** Every factory-built response either succeeds with status 200 and no
      errors, or fails without data; a success never carries errors. */
  predicate FactoryShape<T>(r: Response<T>)
  {
    (r.isSuccess ==> r.statusCode == SC_OK && r.errors == []) && (!r.isSuccess ==> r.data == None)
  }

  lemma FactoriesKeepShape<T>(message: string, data: T, errors: Option<seq<string>>, statusCode: int)
    ensures FactoryShape(Success<T>(message)) && FactoryShape(SuccessWithData(message, data))
    ensures FactoryShape(Error<T>(errors, message)) && FactoryShape(ErrorWithStatus<T>(errors, message, statusCode))
  {
  }
}
