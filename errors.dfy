/** The exceptions the contact book raises, and the wrappers that carry them. */
module Errors {

  /** The Python exceptions that can leave a handler. The first three are the ones
      the `input_error` decorator turns into messages; the last two escape it. */
  datatype Error =
    | IndexError      // a missing positional argument (`args[0]` on an empty tuple)
    | KeyError        // a contact name that is not in the book
    | ValueError      // a malformed phone number, or a phone that is not in the record
    | AttributeError  // a call to a method the record does not have
    | TypeError       // a handler called with more arguments than it takes

  /** A computation that either returns a value or raises an exception. */
  datatype Result<T> = Ok(value: T) | Err(error: Error)

  /** Python's `None` or a value. */
  datatype Option<T> = None | Some(value: T)
}
