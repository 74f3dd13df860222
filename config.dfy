/** The downloader's configuration and its normalisation (`Config` and
    `validateConfig` in downloader.go). */
module DownloadConfig {
  import opened Errors

  /** Retries used when the configured count is zero (DefaultRetriesCount). */
  const DefaultRetriesCount: int := 5
  /** Chunk size used when the configured size is zero: 10 MiB (DefaultChunkSize). */
  const DefaultChunkSize: int := 10 * 1024 * 1024

  /** A configuration as a value: the three fields of Go's `Config` struct. */
  datatype Settings = Settings(maxNumParallelDownloads: int, chunkSize: int, retries: int)
  {
    /** What validateConfig guarantees of the configuration it accepts. */
    predicate Normalised() {
      maxNumParallelDownloads >= 0 && chunkSize > 0 && retries > 0
    }
  }

  /** validateConfig on a value: the first negative field, checked in the order
      max-parallel, chunk size, retries, is reported; otherwise zero chunk size
      and zero retries are replaced by their defaults. */
  function Validate(c: Settings): (r: Result<Settings>)
    ensures r.Failure? <==> c.maxNumParallelDownloads < 0 || c.chunkSize < 0 || c.retries < 0
    ensures c.maxNumParallelDownloads < 0 ==> r == Failure(MaxParallelNotPositive)
    ensures c.maxNumParallelDownloads >= 0 && c.chunkSize < 0 ==> r == Failure(ChunkSizeNotPositive)
    ensures c.maxNumParallelDownloads >= 0 && c.chunkSize >= 0 && c.retries < 0 ==> r == Failure(RetriesNotPositive)
    ensures r.Success? ==> r.value.Normalised()
    ensures r.Success? ==> r.value.maxNumParallelDownloads == c.maxNumParallelDownloads
    ensures r.Success? ==> r.value.chunkSize == (if c.chunkSize == 0 then DefaultChunkSize else c.chunkSize)
    ensures r.Success? ==> r.value.retries == (if c.retries == 0 then DefaultRetriesCount else c.retries)
  {
    if c.maxNumParallelDownloads < 0 then Failure(MaxParallelNotPositive)
    else if c.chunkSize < 0 then Failure(ChunkSizeNotPositive)
    else if c.retries < 0 then Failure(RetriesNotPositive)
    else
      Success(c.(chunkSize := if c.chunkSize == 0 then DefaultChunkSize else c.chunkSize,
                 retries := if c.retries == 0 then DefaultRetriesCount else c.retries))
  }

  /** A configuration validateConfig accepted is accepted again unchanged. */
  lemma ValidateIdempotent(c: Settings)
    requires Validate(c).Success?
    ensures Validate(Validate(c).value) == Validate(c)
  {
  }

  /** The normalised configurations are exactly the fixed points of validation. */
  lemma NormalisedIsFixedPoint(c: Settings)
    ensures Validate(c) == Success(c) <==> c.Normalised()
  {
  }

  /** Go's `Config` struct, which validateConfig updates through a pointer. */
  class Config {
    var maxNumParallelDownloads: int
    var chunkSize: int
    var retries: int

    constructor (maxNumParallelDownloads: int, chunkSize: int, retries: int)
      ensures Value() == Settings(maxNumParallelDownloads, chunkSize, retries)
    {
      this.maxNumParallelDownloads := maxNumParallelDownloads;
      this.chunkSize := chunkSize;
      this.retries := retries;
    }

    /** The fields as a value. */
    function Value(): Settings
      reads this
    {
      Settings(maxNumParallelDownloads, chunkSize, retries)
    }
  }

  /** validateConfig: returns the error `Validate` reports and leaves `conf`
      untouched, or returns nil having written the defaults into `conf`. */
  method ValidateConfig(conf: Config) returns (err: Option<Error>)
    modifies conf
    ensures err.Some? <==> Validate(old(conf.Value())).Failure?
    ensures err.Some? ==> Validate(old(conf.Value())) == Failure(err.value)
    ensures err.Some? ==> conf.Value() == old(conf.Value())
    ensures err.None? ==> Validate(old(conf.Value())) == Success(conf.Value())
    ensures err.None? ==> conf.Value().Normalised()
    ensures conf.maxNumParallelDownloads == old(conf.maxNumParallelDownloads)
  {
    if conf.maxNumParallelDownloads < 0 {
      return Some(MaxParallelNotPositive);
    }
    if conf.chunkSize < 0 {
      return Some(ChunkSizeNotPositive);
    }
    if conf.retries < 0 {
      return Some(RetriesNotPositive);
    }
    if conf.chunkSize == 0 {
      conf.chunkSize := DefaultChunkSize;
    }
    if conf.retries == 0 {
      conf.retries := DefaultRetriesCount;
    }
    return None;
  }

  /** Validating twice through the pointer: the second call returns nil and
      changes nothing. */
  method ValidateConfigTwice(conf: Config) returns (first: Option<Error>, second: Option<Error>)
    modifies conf
    ensures first.None? ==> second.None? && Validate(old(conf.Value())) == Success(conf.Value())
  {
    first := ValidateConfig(conf);
    if first.None? {
      ValidateIdempotent(old(conf.Value()));
      second := ValidateConfig(conf);
    } else {
      second := first;
    }
  }

  /** The defaults downloader_test.go expects for an all-zero configuration. */
  lemma ZeroConfigGetsDefaults()
    ensures Validate(Settings(0, 0, 0)) == Success(Settings(0, 10485760, 5))
  {
  }
}
