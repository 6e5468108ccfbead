/** Optional values, and results that carry the reason of a failure. */
module Results {

  datatype Option<+T> = None | Some(value: T)

  /** Why an operation of the program throws, or what the C++ standard leaves undefined. */
  datatype Failure =
    | BadJson            // a JSON value does not have the expected shape
    | BadSignature       // a signature is in no table, or cannot be built that way
    | BadCast            // text is not a number of the wanted type
    | OutOfRange         // a number does not fit its type
    | UnknownMessage     // the message class is not one of the four
    | UnsupportedMethod  // a JNIEnv method that the client does not serve
    | TooManyReals       // a seventh floating argument
    | TooManyWords       // a ninth non-floating argument
    | MapFailed          // mmap returned MAP_FAILED
    | NullArgument       // a null Java argument
    | NoResult           // updateJniReturn was never called
    | UndefinedBehaviour // the C++ code reads or writes outside an object

  datatype Result<+T> = Ok(value: T) | Err(failure: Failure) {

    predicate IsFailure() {
      Err?
    }

    function PropagateFailure<U>(): Result<U>
      requires Err?
    {
      Err(failure)
    }

    function Extract(): T
      requires Ok?
    {
      value
    }
  }
}
