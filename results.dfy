/** Failure-compatible result type used for every operation that can throw in the PHP source. */
module Results {

  datatype Result<+T, +E> = Ok(value: T) | Err(error: E) {

    predicate IsFailure() {
      Err?
    }

    function PropagateFailure<U>(): Result<U, E>
      requires Err?
    {
      Err(error)
    }

    function Extract(): T
      requires Ok?
    {
      value
    }
  }

  /** An optional value: a regular-expression match that may be absent. */
  datatype Option<+T> = None | Some(value: T)
}

/** The exceptions that abort a schema generation run. */
module Errors {

  datatype Error =
    | UndefinedType(text: string)            // isObject: ParseError "Undefined type: ..."
    | UnexpectedType(text: string)           // parseType's last line: ParseError "Unexpected type: ..."
    | UnexpectedRequired(text: string)       // parseRequired: ParseError "Unexpected required: ..."
    | CannotDetermineParent(typeName: string) // getParent: ParseError "Cannot determine parent of type: ..."
    | ReturnTypeNotFound                     // getReturnType: RuntimeException
    | EmptyNodeList                          // a table cell that the row does not have

  /** The exception message the PHP code builds for each failure. */
  function Message(e: Error): string
  {
    match e
    case UndefinedType(t) => "Undefined type: " + t
    case UnexpectedType(t) => "Unexpected type: " + t
    case UnexpectedRequired(t) => "Unexpected required: " + t
    case CannotDetermineParent(t) => "Cannot determine parent of type: " + t
    case ReturnTypeNotFound => "return type does not found"
    case EmptyNodeList => "The current node list is empty."
  }
}
