/** Error values and the Option/Result wrappers shared by every module.
    Go's `(T, error)` pairs become `Result<T>`; a bare `error` return that may
    be nil becomes `Option<Error>`. */
module Errors {

  datatype Option<+T> = None | Some(value: T)

  /** `Failure(e)` stands for Go's `(zero value, e)`, `Success(v)` for `(v, nil)`. */
  datatype Result<+T> = Success(value: T) | Failure(error: Error)

  /** The error values the core can return. */
  datatype Error =
    | MaxParallelNotPositive   // ErrMaxNumParallelDownloadsPositive
    | ChunkSizeNotPositive     // ErrChunkSizePositive
    | RetriesNotPositive       // ErrRetriesPositive
    | InvalidUrl               // fmt.Errorf("url should be valid") in Download
    | RequestError(msg: string)   // http.NewRequest refused the URL
    | TransportError(msg: string) // Client.Do failed (connection, cancelled context, ...)
    | StorageError(msg: string)   // a file-system call failed
  {
    /** The text Go's `Error()` gives for this value. The three configuration
        errors are distinct values (tests compare them with `errors.Is`), but
        downloader.go gives the retries error the max-parallel text. */
    function Message(): string
    {
      match this
      case MaxParallelNotPositive => "max parallel downloads should be positive"
      case ChunkSizeNotPositive => "chuck size should be positive"
      case RetriesNotPositive => "max parallel downloads should be positive"
      case InvalidUrl => "url should be valid"
      case RequestError(msg) => msg
      case TransportError(msg) => msg
      case StorageError(msg) => msg
    }
  }

  /** The retries error cannot be told apart from the max-parallel error by its
      message, only by identity. */
  lemma RetriesMessageDuplicatesMaxParallel()
    ensures RetriesNotPositive != MaxParallelNotPositive
    ensures RetriesNotPositive.Message() == MaxParallelNotPositive.Message()
    ensures ChunkSizeNotPositive.Message() != MaxParallelNotPositive.Message()
  {
  }
}
