/** Option, Result and Outcome, and the kinds of fatal failure the modelled code raises. */
module Wrappers {

  datatype Option<+T> = None | Some(value: T)

  /** Why an operation aborted: each case is an exception the source throws. */
  datatype Fault =
    | KeyNotFound          // a dictionary indexer found no entry
    | DuplicateKey         // Dictionary.Add found the key already present
    | NullReference        // a field or parent that was never set is dereferenced
    | UnexpectedState(msg: string)  // ProofGenUnexpectedStateException
    | NotImplemented       // NotImplementedException

  datatype Result<+T> = Ok(value: T) | Err(fault: Fault)

  datatype Outcome = Pass | Fail(fault: Fault)
}
