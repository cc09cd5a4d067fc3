/** The two exceptions the tokenizer registry throws, and the result types
    that carry them in place of PHP's non-local exit. */
module Errors {

  datatype Error =
      /** getCustomToken on a value that was never added:
          'No custom token was found for: <value>' */
    | InvalidArgumentException(value: int)
      /** addCustomToken on a value that is already taken:
          'Trying to register token <name> (<value>), token with this value
          was already defined: <existing>' */
    | LogicException(name: string, value: int, existing: string)

  /** A value-returning call that either returns or throws. */
  datatype Result<T> = Ok(value: T) | Err(error: Error)

  /** A call returning nothing that either completes or throws. */
  datatype Outcome = Pass | Fail(error: Error)

  datatype Option<T> = None | Some(value: T)
}
