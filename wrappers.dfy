/** Option and Result types shared by the model, and the kinds of failure
    that the Go code reports through its `error` return values. */
module Wrappers {

  datatype Option<+T> = None | Some(value: T)

  /** Why an operation returned a non-nil `error`. */
  datatype Failure =
    | ListCommandFailed   // `ldconsole list2` or the GBK decode of its output failed
    | PropCommandFailed   // `ldconsole getprop` exited with an error
    | EmptyImei           // `getprop` printed nothing but white space
    | QueryFailed         // `SELECT COUNT(*)` returned an error
    | InsertFailed        // `INSERT OR IGNORE` returned an error (transaction rolled back)

  datatype Result<+T> = Ok(value: T) | Err(failure: Failure)
}
