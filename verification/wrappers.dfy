/** Optional values and fallible results shared by the media catalog model. */
module Wrappers {

  /** An optional value: `undefined`/`null` in the catalog's records is `None`. */
  datatype Option<+T> = None | Some(value: T) {

    /** The wrapped value, or `default` when there is none. */
    function GetOr(default: T): T {
      match this
      case Some(v) => v
      case None => default
    }
  }

  /** Why an operation of the catalog failed. */
  datatype Error =
    /** A request to the content-indexing API was rejected or reported errors. */
    | FetchFailed(reason: string)
    /** No cached (or freshly listed) document carries the requested id. */
    | DocumentNotFound(id: string)

  /** The value of an operation that either succeeds or fails with an `Error`. */
  datatype Result<+T> = Ok(value: T) | Err(error: Error)
}
