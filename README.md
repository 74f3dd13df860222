# go-parallelDownloader: a Dafny model of the sequential core

go-parallelDownloader fetches one remote file over HTTP. It asks the server
for the file's length and name with a HEAD request, creates an empty local
file of that size, cuts the byte range `[0, Length)` into chunks, downloads
the chunks concurrently (each with bounded retry, by a ranged GET) and writes
each at its offset. If any chunk fails, the file is deleted and the error
returned.

This project models the deterministic logic around the concurrent engine and
proves what it promises:

- `DownloadConfig` (config.dfy): the `Config` struct as a class and
  `validateConfig` as a method that updates it in place, specified by the pure
  function `Validate`: negative fields are rejected in a fixed order, zero
  chunk size and zero retries become 10 MiB and 5, and validation is
  idempotent.
- `ChunkPlanner` (planner.dfy): the chunk loop of `downloadParts` as a method
  with a loop invariant, specified by the recursive function `PlanFrom`, and
  the concurrency ceiling `maxProcesses`. Lemmas show the ranges are
  contiguous, disjoint and exhaustive over `[0, Length)`. They also show that
  there are `ceil(Length / ChunkSize)` of them, that all but the last are
  `ChunkSize` long, and that the ceiling equals the chunk count when no limit
  is set.
- `Http` (http.dfy): `GetFileStats` as a mapping from the
  HEAD outcome to `FileStat`, with Go's `path.Base` for the name;
  `GetFilePart` as a recursion on the retry budget over an abstract server;
  the `Range` header text and its parse.
- `Decimal` (decimal.dfy): the `%d` formatting the header uses, with its
  parse as inverse.
- `Downloader` (downloader.dfy): `downloadPart`, the first error delivered by
  `errChan`, and `Download` as a function over abstract outcomes. Its result
  records the file-system calls it makes and the parts it starts.
- `Errors` (errors.dfy): the error values and Option/Result.

Inputs standing for code outside the model: whether `url.ParseRequestURI`
accepts the URL (`urlValid`); the outcome of building a request (an error or
the URL's path); the outcome of each HTTP exchange (a `HeadResponse`, or for
range requests a `Server` function from attempt number and Range header to
`NoResponse(err)` or `Response(status, body)`); the error of
`fs.CreateEmptyFile`; the reports of the chunk tasks, in arrival order.

### Behaviour worth noting

- `MaxNumParallelDownloads` does not affect the chunk size. A non-zero value
  is the capacity of the `guard` channel in `downloadParts`. With zero, the
  capacity is the number of chunks.
- The comment on `DefaultChunkSize` says 1 MB; the value is 10 MiB.
- `ErrRetriesPositive` has the same message as
  `ErrMaxNumParallelDownloadsPositive`. The two stay distinct values
  (`RetriesMessageDuplicatesMaxParallel`).
- After the last retry, a response with status 300 or more is returned as a
  successful body. `AlwaysFailingServerSucceeds` proves the end-to-end
  consequence: a server that answers 404 to every range request still yields
  a successful download, with the error bodies written into the file.
- `GetFilePart` does not look at the context before an attempt. A cancelled
  context makes `Client.Do` fail, which is a transport error and is retried
  like any other.
- The test text is 43 bytes. The retry test of http_test.go answers 404
  once, then 200. `StopsAtFirstSuccess` covers any number of failures before
  a success.
- The header is `bytes=<start>-<end>` with the planner's exclusive end.
  Section 14.1.2 of RFC 9110 reads the last position as inclusive.
  `PlannedRangeHeader` proves what that reading requests: one byte more than
  each non-last chunk, namely the first byte of the next chunk. The test
  server of http_test.go reads the end as exclusive and gets exactly the
  chunk. The model sends what the code sends.

## Model

| member | source | states |
|---|---|---|
| `DownloadConfig.Config.constructor` | downloader.go:14-18 | Go's `Config` struct: a config object holds exactly the max-parallel, chunk size and retries it was built with |
| `DownloadConfig.Validate` | downloader.go:31-49 | rejects a negative max-parallel, then a negative chunk size, then negative retries, each with its own error, and fails exactly when a field is negative; on success chunk size and retries are positive, a zero becomes its default, a positive value and max-parallel are kept |
| `DownloadConfig.ValidateConfig` | downloader.go:31-49 | updates the config through the pointer: on an error the config is unchanged, on nil it holds the normalised value `Validate` gives; max-parallel is never written |
| `DownloadConfig.ValidateIdempotent` | downloader.go:42-48 | a config validation accepted is accepted again, unchanged |
| `DownloadConfig.NormalisedIsFixedPoint` | downloader.go:42-48 | validation leaves a config unchanged exactly when max-parallel is non-negative and chunk size and retries are positive |
| `DownloadConfig.ValidateConfigTwice` | downloader.go:31-49 | through the pointer, a second validation after a successful one returns nil and changes nothing |
| `DownloadConfig.ZeroConfigGetsDefaults` | downloader_test.go:50-57 | an all-zero config becomes chunk size 10485760, retries 5, max-parallel 0 |
| `Errors.RetriesMessageDuplicatesMaxParallel` | downloader.go:20-24 | the retries error is a different value from the max-parallel error but carries the same message |
| `ChunkPlanner.PlanFrom` | downloader.go:76-81 | what the loop emits from a given `start`: nothing exactly when `start >= Length`, otherwise a first range starting at `start` |
| `ChunkPlanner.Plan` | downloader.go:76-81 | the whole plan: empty exactly when `Length <= 0`, otherwise its first range starts at byte 0 |
| `ChunkPlanner.PlanChunks` | downloader.go:76-81 | the loop returns exactly the plan, `ceil(Length / ChunkSize)` ranges, each non-empty and inside `[0, Length)` |
| `ChunkPlanner.PlanFromAt` | downloader.go:76-81 | the `i`-th range emitted from `start` exists exactly when `start + i*ChunkSize < Length` and is `[start + i*ChunkSize, min(start + (i+1)*ChunkSize, Length))` |
| `ChunkPlanner.PlanFromCount` | downloader.go:76-81 | the loop emits `ceil((Length - start) / ChunkSize)` ranges from `start` on, none when `start >= Length` |
| `ChunkPlanner.PlanShape` | downloader.go:76-81 | closed form of the whole plan: range `i` is the one at offset `i*ChunkSize`, for exactly the `i` with `i*ChunkSize < Length` |
| `ChunkPlanner.PlanContiguous` | downloader.go:76-81 | the plan is empty exactly when `Length <= 0`; otherwise it starts at 0, ends at `Length`, every range is non-empty and each ends where the next starts |
| `ChunkPlanner.PlanStarts` | downloader.go:76-77 | range `i` starts at `i * ChunkSize` |
| `ChunkPlanner.PlanChunkSizes` | downloader.go:77-81 | every range but the last is `ChunkSize` long; the last is 1 to `ChunkSize` long |
| `ChunkPlanner.PlanCount` | downloader.go:76-81 | the plan has `ceil(Length / ChunkSize)` ranges: `(n-1)*ChunkSize < Length <= n*ChunkSize`, and none for `Length <= 0` |
| `ChunkPlanner.PlanDisjoint` | downloader.go:76-81 | an earlier range ends no later than any later one starts, so no byte is in two ranges |
| `ChunkPlanner.PlanPairOrdered` | downloader.go:76-81 | for any two ranges `i < j`, range `i` ends no later than range `j` starts |
| `ChunkPlanner.PlanCovers` | downloader.go:76-81 | a byte lies in some range exactly when it is in `[0, Length)` |
| `ChunkPlanner.PlanLocate` | downloader.go:76-81 | byte `b` of `[0, Length)` lies in range `b / ChunkSize` |
| `ChunkPlanner.PlanWithin` | downloader.go:76-81 | every range lies inside `[0, Length)` |
| `ChunkPlanner.PlanStep` | downloader.go:76-81 | range `i` is non-empty and inside `[0, Length)`, and the next range starts where it ends |
| `ChunkPlanner.CeilDiv` | downloader.go:67 | the ceiling of `n / d`: the integer `q` with `(q-1)*d < n <= q*d` |
| `ChunkPlanner.CeilDivUnique` | downloader.go:67 | that ceiling is the only integer bracketing `n` that way |
| `ChunkPlanner.MaxProcesses` | downloader.go:65-68 | the `guard` capacity is `MaxNumParallelDownloads` when non-zero, otherwise `ceil(Length / ChunkSize)` |
| `ChunkPlanner.CeilingIsChunkCount` | downloader.go:65-68 | with no limit the `guard` capacity equals the number of planned ranges for `Length >= 0`, and is not positive for a negative `Length` |
| `ChunkPlanner.TestTextPlan` | downloader_test.go:82-87 | 43 bytes in chunks of 10 plan as `[0,10) [10,20) [20,30) [30,40) [40,43)` |
| `Decimal.NatToString` | internal/http/http.go:43 | `%d` of a natural number is a non-empty string of digits with no leading zero |
| `Decimal.IntToString` | internal/http/http.go:43 | `%d` of an integer is non-empty and all digits exactly when the integer is non-negative |
| `Decimal.ParseNatToString` | internal/http/http.go:43 | parsing the digits `%d` writes gives the number back |
| `Http.RangeHeaderRoundTrip` | internal/http/http.go:43 | the header `RangeHeader` builds with `bytes=%d-%d` parses back to the caller's `start` and `end` unchanged |
| `Http.HeaderSelections` | internal/http/http.go:43 | for `[start, end)` inside the file, an exclusive-end reading of the header selects exactly that range; the RFC 9110 inclusive reading selects `[start, min(end+1, Length))` |
| `Http.PlannedRangeHeader` | internal/http/http.go:43 | for every planned range the exclusive reading gets the range; the RFC 9110 reading gets one byte more unless the range is last, and that byte is the first of the next range |
| `Http.LastSegment` | internal/http/http.go:33 | the text after the last slash: slash-free, a suffix of the path, preceded by a slash when shorter than it |
| `Http.TrimTrailingSlashes` | internal/http/http.go:33 | a prefix of the path without a trailing slash, followed only by slashes |
| `Http.BaseName` | internal/http/http.go:33 | `path.Base`: "." for an empty path, "/" exactly for a non-empty path of slashes only, otherwise the slash-free last element after trailing slashes are removed |
| `Http.BaseNameOfElement` | internal/http/http.go:33 | the base name of `dir/name`, with `name` non-empty and slash-free, is `name` |
| `Http.GetFileStats` | internal/http/http.go:21-36 | fails with the request-building error, else with the HEAD error, with no retry; on success `Length` is the Content-Length, `Hash` the ETag and `FileName` the base name of the URL path |
| `Http.GetFileStatsTestFile` | internal/http/http_test.go:19-36 | for "/testfile.txt" the stat is `(length, etag, "testfile.txt")` |
| `Http.Retryable` | internal/http/http.go:45 | a transport error and any status of 300 or more are retried; a 2xx status ends the retries |
| `Http.Deliver` | internal/http/http.go:48-52 | the last attempt decides: a transport error is returned as that error, any response (whatever its status) as its body |
| `Http.GetFilePartFrom` | internal/http/http.go:38-53 | a request error returns at once with nothing sent; otherwise 1 to `retries+1` attempts, each with the caller's Range header; every attempt but the last was a transport error or status >= 300; the last was not, unless the budget ran out; the last decides the result |
| `Http.GetFilePart` | internal/http/http.go:38-53 | from the first attempt: a request error returns at once with nothing sent; otherwise 1 to `retries+1` requests, all with the caller's Range header, every answer but the last retryable, the last answer not retryable unless the budget ran out, and the last answer decides the result |
| `Http.RequestErrorNotRetried` | internal/http/http.go:39-42 | a request that cannot be built is returned as the error with no request sent |
| `Http.StopsAtFirstSuccess` | internal/http/http.go:45-52 | when the first `n <= retries` attempts fail and attempt `n` does not, exactly `n+1` attempts are made and its body is returned |
| `Http.ExhaustedBudget` | internal/http/http.go:45-52 | when every attempt within the budget fails, `retries+1` attempts are made; a final response of status >= 300 is returned as a successful body, a final transport error as that error |
| `Http.RangeSixToTen` | internal/http/http_test.go:38-63 | fetching `(6, 10)` from the test server with no retries sends `bytes=6-10` once and returns "aket" |
| `Http.SuccessfulAfterRetry` | internal/http/http_test.go:65-87 | 404 then 200 with `retries = 5`: two attempts, body "success" |
| `Http.FailAfterRetry` | internal/http/http_test.go:89-106 | always 404 with `retries = 2`: three attempts, "fail" returned as a successful body |
| `Http.ConnectFailure` | internal/http/http_test.go:108-128 | a connection that always fails with `retries = 2`: three attempts, the transport error returned |
| `Downloader.DownloadPart` | downloader.go:51-62 | a chunk task reports the fetch error if the fetch failed, else the write error |
| `Downloader.FirstErrorIndex` | downloader.go:106-108 | the position of the first error report in arrival order, with no error before it |
| `Downloader.FirstError` | downloader.go:106-108 | downloadParts returns no error exactly when no task reported one, otherwise one of the reported errors |
| `Downloader.Download` | downloader.go:126-149 | an invalid URL returns "url should be valid" even when the config is invalid too; a config error or a metadata failure returns before any file is created; a CreateEmptyFile error is returned with the call recorded, no parts started and nothing deleted; success exactly when URL, config, probe, file creation and every task succeeded, returning the file name; once URL, config, probe and file creation succeed the parts are always started; after a task failure the created file is deleted and the first reported error returned; the parts started are the plan and ceiling of the validated config |
| `Downloader.AlwaysFailingServerSucceeds` | internal/http/http.go:45-52 | with every range request answered by 404, every task reports no error and Download succeeds, creating and keeping the file (for a non-negative `guard` capacity) |
| `Downloader.NothingToDownload` | downloader.go:76-81 | a length of zero or less plans no range, so no task runs and Download returns the file name and keeps the file `CreateEmptyFile` made (for a non-negative `guard` capacity) |
| `Downloader.DownloadTestFile` | downloader_test.go:59-94 | the end-to-end test's configuration plans five ranges of the 43-byte file, a `guard` capacity of five, one retry, and returns "testfile.txt" |

## Left out

- Goroutines, the `guard` channel, `errChan`, `sync.WaitGroup` and the
  context (downloader.go:70-108) are concurrency. The model keeps only the
  sequential abstraction: the first error report to arrive is returned.
  `downloadParts` receives the first error and the second fills the
  capacity-1 `errChan` buffer, so once two tasks have reported errors every
  further failing task blocks forever on `errChan`, and so does the
  goroutine waiting on the `WaitGroup`. This is not modelled.
- `math.Ceil` over float64 is replaced by integer ceiling division. Float
  rounding for lengths beyond 2^53 is not modelled.
- A negative capacity for `make(chan bool, maxProcesses)` panics in Go.
  `CeilingIsChunkCount` shows the capacity is not positive for a negative
  `Length`, the -1 Go reports for an unknown Content-Length. With chunk size
  1 it is -1. The panic itself is not modelled: `Download` returns as if the
  `guard` channel were made, so `NothingToDownload` and
  `AlwaysFailingServerSucceeds` require a non-negative capacity.
- `ChunkPlanner.PlanChunks`: does not model int64 wrap-around of
  `start + ChunkSize`, which needs `Length + ChunkSize > 2^63 - 1`.
  Integers are unbounded throughout.
- internal/fs/fs.go (`CreateEmptyFile`, `WriteToFile`, `DeleteFile`,
  `GetFileReader`) is not part of this model. Its calls appear as the
  recorded `FsOp` sequence and as error inputs. The error of the cleanup
  `DeleteFile` is ignored by downloader.go and is not an input. For size 0,
  `CreateEmptyFile` writes one zero byte (its `Seek(-1)` fails unchecked);
  the file contents are not modelled.
- cmd/cli/main.go is not part of this model: flag parsing, logging and exit
  codes.
- The real `net/http` client and `url.ParseRequestURI` are abstract inputs.
  Go's `path.Base` is modelled from its documented behaviour.
- Byte-stream contents, `io.ReadCloser` lifetime and the unclosed bodies of
  retried responses are not modelled. So the end-to-end byte-identity of the
  downloaded file is not stated.
- `Downloader.Download`: the task reports are an input in arrival order,
  not derived from the chunk plan. Which task's error arrives first depends
  on scheduling. `NothingToDownload` ties the reports to the plan for an
  empty file.
