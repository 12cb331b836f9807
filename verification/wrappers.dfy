/** Failure-carrying values shared by every module of the model.

    The modelled Java and Python code signals its error paths with exceptions
    (NumberFormatException, ArrayIndexOutOfBoundsException, KeyError, ...).
    Here each of them becomes a `Fail` carrying the kind of fault, so that the
    error path is part of the model instead of being excluded by a precondition.
 */
module Wrappers {

  /** The conventional Some/None type, used where the source returns null. */
  datatype Option<+T> = None | Some(value: T)

  /** The exception kinds raised along the modelled code paths. */
  datatype Fault =
    | NumberFormat            // Integer.parseInt / Double.parseDouble rejected a token
    | IndexOutOfBounds        // an array or list index outside its bounds
    | KeyMissing              // a Python dict lookup of an absent key (KeyError)
    | Overflow                // Python int.to_bytes on a value that does not fit
    | MalformedInput          // DataInputStream.readUTF met bad or truncated input
    | NullReference           // Java dereferenced the null a missing map entry gives

  /** Either a value or the fault that was raised instead. */
  datatype Result<+T> = Ok(value: T) | Fail(fault: Fault) {

    predicate IsFailure() {
      Fail?
    }

    function PropagateFailure<U>(): Result<U>
      requires Fail?
    {
      Fail(fault)
    }

    function Extract(): T
      requires Ok?
    {
      value
    }
  }
}
