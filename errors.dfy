/**
 * The exceptions the import pipeline throws, and the result of an operation
 * that either returns a value or throws one of them.
 */
module Errors {
  import opened Php

  datatype Error =
    | NoSyncPath                                          // error:nosyncpath
    | NoOpen(path: string)                                // error:noopen
    | InvalidReplica(name: string)                        // error:invalidreplica
    | InvalidCourseImport(name: string)                   // rejected by the course table validator
    | RowCountMismatch(imported: nat, expected: Option<int>)
    | ImportCountOverThreshold(countdelta: int, maxdelta: int)
    | UnknownAction(action: Option<string>)               // error:unknownaction; null for a row without ACTION

  datatype Result<+T> = Ok(value: T) | Err(error: Error)
}
