/** Failure values of the persistence engine: the Python exception classes its
    operations can raise, and the two wrappers used for fallible results. */
module Results {

  /** The exceptions that escape the record constructor, `to_dict`, `__str__`,
      `FileStorage.new`, `FileStorage.save` and `FileStorage.reload`. */
  datatype Error =
    | TypeError       // strptime given a non-string; json.dump given a datetime
    | ValueError      // strptime given text that does not match the format
    | AttributeError  // a missing `id`, or a timestamp attribute that is not a datetime
    | JSONDecodeError // a store line that is not exactly one JSON object

  /** A value, or the exception raised instead of producing it. */
  datatype Result<+T> = Ok(value: T) | Err(error: Error)

  /** Completion of an operation that returns nothing (Python's `None`). */
  datatype Outcome = Pass | Fail(error: Error)
}
