/** Small result types shared by every module: an optional value (JavaScript's
    `undefined` / `null`) and the outcome of an operation that may throw. */
module Outcomes {

  datatype Option<+T> = None | Some(value: T)

  /** JavaScript truthiness of a `string | null`: neither null nor "". */
  predicate Truthy(s: Option<string>) {
    s.Some? && s.value != ""
  }

  /** Why a store action threw. */
  datatype Failure =
    | NotInitialized   // no runtime instance
    | RuntimeFailure   // a runtime filesystem call threw
    | StorageFailure   // a key-value store call threw
    | BootFailure      // booting the runtime threw

  /** Resolved (`Ok`) or rejected (`Failed`) promise of an action returning nothing. */
  datatype Outcome = Ok | Failed(failure: Failure)
}
