/** Shared vocabulary: optional values, the exceptions the store client
    raises, and the result of one call into the client. */
module Base {

  /** Python's `None` or a present value. */
  datatype Option<+T> = None | Some(value: T)

  /** Exceptions a call into the store client can raise. The first two are
      the ones the retry helper retries; `ResponseError` stands for every
      other error reply (an invalid expire time, a value that is not an
      integer, ...). */
  datatype Fault = ConnectionError | TimeoutError | ResponseError

  predicate Retryable(f: Fault) {
    f.ConnectionError? || f.TimeoutError?
  }

  /** The result of one invocation of a store operation: a value, or an
      exception. */
  datatype Outcome<+T> = Ok(value: T) | Raised(fault: Fault)
}
