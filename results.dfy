/** Outcome types shared by every module: JavaScript's `undefined` and thrown
    exceptions become explicit values. */
module Results {

  datatype Option<T> = None | Some(value: T)

  /** Why a run of the generator aborts. */
  datatype Failure =
    | TypeError(reason: string)     // a property read on null/undefined, or a method missing on a value
    | ParseError(reason: string)    // JSON.parse rejected a documentation sample
    | Unsupported(reason: string)   // a JavaScript value shape the model does not represent

  datatype Result<T> = Ok(value: T) | Err(error: Failure) {
    predicate IsFailure() { Err? }
    function PropagateFailure<U>(): Result<U> requires Err? { Err(error) }
    function Extract(): T requires Ok? { value }
  }
}
