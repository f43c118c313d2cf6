/** Result types: the package's error values become failure constructors. */
module Wrappers {

  datatype Option<+T> = None | Some(value: T)

  /** The errors of icmp/message.go that the modelled functions return. */
  datatype Error =
    | InvalidProtocol
    | MessageTooShort
    | NoExtension
    | InvalidExtension

  datatype Result<+T> = Ok(value: T) | Err(error: Error) {
    predicate IsFailure() {
      Err?
    }

    function PropagateFailure<U>(): (r: Result<U>)
      requires Err?
    {
      Err(error)
    }

    function Extract(): (r: T)
      requires Ok?
    {
      value
    }
  }
}
