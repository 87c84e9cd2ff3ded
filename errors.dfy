/** The error conditions a segment can raise, and the result types that carry
    them in place of Python exceptions. */
module Errors {

  datatype Error =
    /** KeyError('Unknown feature name.') from the validated setter. */
    | UnknownFeatureName(name: string)
    /** KeyError from looking up a name that has no stored value. */
    | MissingKey(name: string)
    /** KeyError from looking up a value that has no display symbol. */
    | NoSymbol(value: int)
    /** ZeroDivisionError from normalizing by an empty schema. */
    | ZeroDivision
    /** NameError from a reference to a name that is not defined. */
    | NameError(name: string)
    /** The error raised when a regular expression fails to compile. */
    | PatternError

  datatype Result<+T> = Ok(value: T) | Err(error: Error)

  /** The outcome of an operation that returns nothing on success. */
  datatype Outcome = Pass | Fail(error: Error)
}
