module Statuses {
  /** How an operation ends: well, with an error code, or with a failed assertion that stops the process. */
  datatype Status = Ok | Error | Panic
}
