/** Optional values and the status codes the store operations return. */
module Wrappers {

  datatype Option<+T> = None | Some(value: T)

  /** The kinds of `Status` the tablet metadata store produces. */
  datatype Status =
    | OK
    | InvalidArgument
    | NotFound
    | Corruption
    | InternalError
    | IOError
    | NotSupported
}
