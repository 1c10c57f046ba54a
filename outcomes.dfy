/** Optional values, results, and the Python exceptions that the two
    experiment scripts can raise while planning or substituting. */
module Outcomes {

  datatype Option<+T> = None | Some(value: T)

  /** The exceptions the orchestration raises, by Python class. */
  datatype Error =
    | NotImplementedError
      /** a name that is used but was never imported or bound */
    | NameError(name: string)
      /** a local variable read before any assignment */
    | UnboundLocalError(name: string)
      /** an attribute looked up on a module that does not have it */
    | AttributeError(name: string)

  datatype Result<+T> = Ok(value: T) | Err(error: Error)
}
