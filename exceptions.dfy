/** The Python exceptions that can escape the evaluators, and the outcome of a call that may raise one. */
module Exceptions {

  datatype Exc =
    | AttributeError(attr: string)   // an attribute that was never set
    | KeyError(key: string)          // a dictionary key that is missing
    | IndexError                     // `p.split('=')[1]` on an entry without `=`
    | ValueError                     // a write to a closed file
    | TypeError                      // `os.path.exists(None)`
    | KeyboardInterrupt              // the user pressed Ctrl-C
    | SystemExit(status: int)        // `exit(status)`
    | EvaluatorError(code: int)      // an exit code the shell protocol does not know

  /** A call returns a value normally or raises an exception. */
  datatype Outcome<T> = Normal(value: T) | Raised(exc: Exc)
}
