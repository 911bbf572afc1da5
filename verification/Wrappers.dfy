/** Optional values and outcomes: Go's "value, ok" and "value, error" returns. */
module Wrappers {

  datatype Option<+T> = None | Some(value: T)

  /** Why an operation refused. The Go code returns formatted strings; the engine
      and the model use the same wording after their own package prefix. */
  datatype Error =
    | NoBranch
    | BranchExists
    | NoParentBranch
    | BranchHasNoParent
    | AmbiguousBase(count: nat)
    | SessionsNotPermitted
    | NoOpenSession
    | BranchMoved

  datatype Result<+T> = Ok(value: T) | Err(error: Error)
}
