/** Python exceptions raised by the calculator core, and the value-or-exception
    outcome every operation of the model returns instead of raising. */
module Results {

  /** The exceptions the core raises. `message` is the text the source passes to
      the exception (the user interface shows it verbatim). */
  datatype Error =
    | ValueError(message: string)
    | ZeroDivisionError(message: string)
    /** `list.pop()` or `list[0]` on an empty list */
    | IndexError
    /** `operations['(']`: a parenthesis marker handed to the operator table */
    | KeyError
    /** a path of the source that this model does not follow (named by `what`) */
    | OutsideModel(what: string)

  datatype Result<+T> = Success(value: T) | Failure(error: Error)
}
