/** Option, the Python exceptions the assembler can raise, and Outcome: a value or a raised exception. */
module Wrappers {

  datatype Option<+T> = None | Some(value: T) {
    function GetOr(default: T): T {
      match this
      case Some(v) => v
      case None => default
    }
  }

  /** The exceptions raised by the assembler, by kind; the payload names the offending token where the source does. */
  datatype Error =
    | PrefixError                              // ValueError: numeral without an x / # / b prefix
    | DigitsError(token: string, base: nat)    // ValueError: "Inappropriate value: <token> for base <base>."
    | LiteralError(literal: string)            // ValueError raised by int(literal, 0)
    | InvalidLabel(token: string)              // ValueError: "Invalid label: <token>"
    | IndexError
    | KeyError(key: string)
    | SyntaxError
    | TypeError
    | NotImplementedError
    | OverflowError                            // array('H') refuses a value outside [0, 65536)
    | NameError                                // a reference to an undefined Python name

  /** Every kind Python reports as a ValueError. */
  predicate IsValueError(e: Error) {
    e.PrefixError? || e.DigitsError? || e.LiteralError? || e.InvalidLabel?
  }

  /** Either the value an operation returns or the exception it raises. */
  datatype Outcome<+T> = Ok(value: T) | Raise(error: Error) {
    predicate IsFailure() {
      Raise?
    }

    function PropagateFailure<U>(): Outcome<U>
      requires Raise?
    {
      Raise(error)
    }

    function Extract(): T
      requires Ok?
    {
      value
    }
  }
}
