/** The exceptions and failed asynchronous results that travel through the inbox read path. */
module Errors {
  import opened Wrappers

  datatype Error =
    | StoreError(message: string)            // the Redis client failed: connection or protocol error, or a rejected command
    | SerializationError                      // the RuntimeException MessageCacheAdapter.serialize throws when Jackson fails
    | DataAccessError(message: string)       // a repository query of the persistence port failed
    | IllegalArgument(message: string)       // Pageable.of rejected its arguments
    | UnsupportedOperation(message: string)  // an operation that is not implemented yet
    | NullPointer                            // a NullPointerException

  /** Throwable.getMessage(); None is a null message (a NullPointerException without detail). */
  function Message(e: Error): Option<string>
  {
    match e
    case StoreError(m) => Some(m)
    case SerializationError => Some("Error de serialización JSON")
    case DataAccessError(m) => Some(m)
    case IllegalArgument(m) => Some(m)
    case UnsupportedOperation(m) => Some(m)
    case NullPointer => None
  }
}
