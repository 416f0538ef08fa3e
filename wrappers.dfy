/** Option and Result, the two ways the modelled code reports "nothing" and "failure". */
module Wrappers {
  datatype Option<T> = None | Some(value: T)
  {
    predicate IsSome() { Some? }
    function GetOr(default: T): T
    {
      match this
      case Some(v) => v
      case None => default
    }
  }

  /** The exceptions the source raises, by kind. */
  datatype Error =
    | StructError        // struct.unpack_from past the end of the buffer
    | ValueError         // an explicit `raise ValueError` or a bad enum value
    | AssertionError     // a Python `assert` that fails
    | IndexError         // an out-of-range subscript
    | KeyError           // a missing dictionary key
    | IntegrityError     // a UNIQUE constraint violated in SQLite
    | InvalidKey         // InvalidItemKeyError from the key/value stores
    | DecodeError        // bytes that do not decode in the requested codec
    | NotFound           // a header magic that is absent
    | TypeError          // an operation applied to a value of the wrong type
    | InvalidAddress     // InvalidVirtualAddressError: an address or section outside the image
    | UnboundLocal       // UnboundLocalError: a local read before any assignment
    | Hang               // not an exception: the source loops forever on this input
    | ZeroDivision       // ZeroDivisionError: a division by zero

  datatype Result<T> = Ok(value: T) | Err(error: Error)
  {
    predicate IsFailure() { Err? }
    function PropagateFailure<U>(): Result<U>
      requires Err?
    { Err(error) }
    function Extract(): T
      requires Ok?
    { value }
  }
}
