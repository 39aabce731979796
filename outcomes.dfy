/** The error paths of the modelled code, named after the .NET exceptions it raises. */
module Outcomes {

  datatype Fault =
    | ArgumentNull      // ArgumentNullException, e.g. an unset recognizer processor
    | ArgumentInvalid   // ArgumentException, e.g. Buffer.BlockCopy past the end of its destination
    | DivideByZero      // DivideByZeroException from an integer division
    | Overflow          // OverflowException, e.g. an array allocated with a negative length
    | NullReference     // NullReferenceException from a null-forgiving dereference
    | NotImplemented    // NotImplementedException
    | CaptureFailed     // the capture collaborator could not start

  datatype Option<+T> = None | Some(value: T)

  datatype Result<+T> = Ok(value: T) | Err(fault: Fault)

  datatype Outcome = Pass | Fail(fault: Fault)
}
