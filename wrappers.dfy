/** Failure-carrying results for the converter. Each `Fault` stands for one of
    the exceptions the converter lets escape; none of them is caught, so any of
    them aborts the whole conversion. */
module Wrappers {

  datatype Fault =
    | CacheFull         // "No space in cache to reserve that many vertices!"
    | UnknownHandle     // ArgumentException from a release of an unknown handle
    | IndexOutOfRange   // an array or list index outside its bounds
    | NullReference     // a cache slot or buffer cell that was never filled
    | KeyNotFound       // a dictionary lookup of a missing key
    | DuplicateKey      // Dictionary.Add of a key already present
    | NoElement         // Enumerable.First on a sequence with no match
    | StackOverflow     // unbounded recursion through cache-draw chunks

  datatype Option<+T> = None | Some(value: T)

  datatype Result<+T> = Ok(value: T) | Err(fault: Fault)
}
