/** Errors and result wrappers shared by the model of the database list. */
module Outcomes {

  /** The exceptions the core throws, by Java exception class. */
  datatype Error =
    | IllegalArgument(message: string)   // IllegalArgumentException, with its message
    | UnsupportedOperation               // UnsupportedOperationException
    | IndexOutOfBounds                   // IndexOutOfBoundsException
    | NoSuchElement                      // NoSuchElementException

  /** Message of the exception thrown when a child event names a key the list does not hold. */
  const KEY_NOT_FOUND: string := "Key not found"

  /** Message of the exception thrown when a null listener is registered. */
  const NULL_LISTENER: string := "Listener cannot be null."

  /** A Java reference that may be null, or a key that may be absent. */
  datatype Option<+T> = None | Some(value: T)

  /** A call that returns a value or throws. */
  datatype Result<+T> = Ok(value: T) | Err(error: Error)

  /** A call that returns nothing (Java `void`): it completes or throws. */
  datatype Outcome = Pass | Fail(error: Error)
}
