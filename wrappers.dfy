/** Optional values and the success-or-message results the agent checks report. */
module Wrappers {

  datatype Option<+T> = None | Some(value: T)

  /** A check's outcome: a value, or the message the agent reports with its failure. */
  datatype Result<+T> = Success(value: T) | Failure(message: string)

  /** An outcome that carries no value (SYSINFO_RET_OK, or SYSINFO_RET_FAIL with its message). */
  datatype Status = Ok | Fail(message: string)
}
