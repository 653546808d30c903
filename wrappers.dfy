/** Outcomes of operations that can fail.  The Python code signals failure by
    raising exceptions; `Exc` names the exception classes the core can raise
    and `Result` carries either a value or the exception that ended the call. */
module Wrappers {

  datatype Option<+T> = None | Some(value: T) {
    function GetOr(default: T): T {
      match this
      case Some(v) => v
      case None => default
    }
  }

  /** The Python exceptions raised by the modelled code. */
  datatype Exc =
    | ConnectionError(msg: string)
    | StructError                 // struct.pack / struct.unpack on a wrong-sized buffer or value
    | IndexError                  // list index out of range
    | OSError                     // socket.inet_ntoa on a buffer that is not 4 bytes long; a connection that cannot be opened
    | TypeError                   // struct.unpack on a value that is not bytes
    | ValueError(msg: string)
    | RuntimeError(msg: string)
    | UnboundLocalError           // a local read before it was ever assigned
    | AttributeError              // a method called on None
    | KeyError                    // a missing dictionary key

  datatype Result<+T> = Ok(value: T) | Raise(exc: Exc) {
    predicate IsFailure() {
      Raise?
    }

    function PropagateFailure<U>(): Result<U>
      requires Raise?
    {
      Raise(exc)
    }

    function Extract(): T
      requires Ok?
    {
      value
    }

    /** The value, or `default` when an exception was raised. */
    function GetOr(default: T): T {
      match this
      case Ok(v) => v
      case Raise(_) => default
    }
  }
}
