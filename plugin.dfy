/** Shared vocabulary of the filesystem plugins: optional values, results,
    the errors a plugin operation can surface, and entry attributes. */
module Plugin {

  datatype Option<+T> = None | Some(value: T)

  /** The errors the modelled operations return. `Provider` stands for any
      error the cloud or container SDK reports, passed through unchanged. */
  datatype Error =
    | ENOENT
    | ENOTSUP
    | Provider(message: string)
    | ObjectNotExist
    | BucketNotExist
    | BucketNotEmpty
      /** "failed to delete the <object> object: <cause>" */
    | ObjectDeleteFailed(object: string, cause: Error)

  /** An operation that yields a `T` or fails with an `Error` (Go's `(T, error)`). */
  datatype Result<+T> = Ok(value: T) | Err(error: Error)

  /** Timestamps are modelled as integers; an unset time is `None`. */
  datatype Attributes = Attributes(crtime: Option<int>, ctime: Option<int>, mtime: Option<int>)
}
