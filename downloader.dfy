/** The control flow of `Download`, `downloadParts` and `downloadPart`
    (downloader.go) as a sequential abstraction. The goroutines, the `guard`
    channel, `errChan` and the context are not modelled: each chunk task
    contributes the error it reported (or none), in the order the reports
    arrive, and the first report to arrive is the one `errChan` delivers. The
    file system and the network are inputs. */
module Downloader {
  import opened Errors
  import opened DownloadConfig
  import opened ChunkPlanner
  import opened Http

  /** A file-system call Download makes, in the order it makes them. */
  datatype FsOp = CreateEmptyFile(path: string, size: int) | DeleteFile(path: string)

  /** What downloadParts was started with: the ranges, one task each, the
      capacity of the `guard` channel and the retry budget of every task. */
  datatype Parts = Parts(chunks: seq<ChunkRange>, ceiling: int, retries: int)

  /** The observable outcome of one call of Download: the returned value (a
      Failure stands for `("", err)`), the file-system calls made, and the
      parts started, if downloadParts was reached. */
  datatype DownloadRun = DownloadRun(result: Result<string>, fs: seq<FsOp>, parts: Option<Parts>)

  /** downloadPart: the error of GetFilePart, else the error of writing the
      body at the chunk's start. */
  function DownloadPart(fetch: Result<string>, write: Option<Error>): (err: Option<Error>)
    ensures fetch.Failure? ==> err == Some(fetch.error)
    ensures fetch.Success? ==> err == write
  {
    match fetch
    case Failure(e) => Some(e)
    case Success(_) => write
  }

  /** No report before position `i` is an error. */
  ghost predicate NoErrorBefore(reports: seq<Option<Error>>, i: int)
    requires 0 <= i <= |reports|
  {
    forall j :: 0 <= j < i ==> reports[j].None?
  }

  /** The position of the first report, in arrival order, that is an error;
      `|reports|` when there is none. */
  function FirstErrorIndex(reports: seq<Option<Error>>): (k: nat)
    ensures k <= |reports| && NoErrorBefore(reports, k)
    ensures k < |reports| ==> reports[k].Some?
    decreases |reports|
  {
    if reports == [] || reports[0].Some? then 0 else 1 + FirstErrorIndex(reports[1..])
  }

  /** The error downloadParts returns: the first report to reach `errChan`;
      none exactly when no task reported an error. */
  function FirstError(reports: seq<Option<Error>>): (r: Option<Error>)
    ensures r.None? <==> NoErrorBefore(reports, |reports|)
    ensures r.Some? ==> r in reports
  {
    var k := FirstErrorIndex(reports);
    if k < |reports| then reports[k] else None
  }

  /** Download(url): validate the configuration, check the URL, probe the
      file, create it, download the parts, and delete the file if a part
      failed.
      - `urlValid`: whether `url.ParseRequestURI` accepts the URL;
      - `statRequest`, `head`: the outcomes GetFileStats gets from building
        and sending the HEAD request;
      - `create`: the error of `fs.CreateEmptyFile`, if any;
      - `reports`: the reports of the chunk tasks, in arrival order. */
  function Download(config: Settings, urlValid: bool, statRequest: Result<string>,
                    head: Result<HeadResponse>, create: Option<Error>,
                    reports: seq<Option<Error>>): (d: DownloadRun)
    // an invalid URL wins over an invalid configuration, though validation ran first
    ensures !urlValid ==> d == DownloadRun(Failure(InvalidUrl), [], None)
    ensures urlValid && Validate(config).Failure? ==> d == DownloadRun(Failure(Validate(config).error), [], None)
    // a metadata failure returns before any file is created
    ensures urlValid && Validate(config).Success? && GetFileStats(statRequest, head).Failure? ==>
      d == DownloadRun(Failure(GetFileStats(statRequest, head).error), [], None)
    // once the file exists: success exactly when no task reported an error
    ensures d.fs != [] ==> urlValid && Validate(config).Success? && GetFileStats(statRequest, head).Success?
    ensures d.fs != [] ==> d.fs[0] == CreateEmptyFile(GetFileStats(statRequest, head).value.fileName,
                                                       GetFileStats(statRequest, head).value.length)
    ensures d.result.Success? <==>
      urlValid && Validate(config).Success? && GetFileStats(statRequest, head).Success?
      && create.None? && NoErrorBefore(reports, |reports|)
    ensures d.result.Success? ==> d.result.value == GetFileStats(statRequest, head).value.fileName
    ensures d.result.Success? ==> |d.fs| == 1
    // a chunk failure deletes the file it created and returns the first reported error
    ensures d.parts.Some? && d.result.Failure? ==>
      |d.fs| == 2 && d.fs[1] == DeleteFile(d.fs[0].path) && Some(d.result.error) == FirstError(reports)
    ensures d.parts.Some? <==> d.fs != [] && create.None?
    ensures urlValid && Validate(config).Success? && GetFileStats(statRequest, head).Success? && create.None? ==>
      d.parts.Some?
    // a failed CreateEmptyFile is returned as is, with the call recorded and nothing deleted
    ensures urlValid && Validate(config).Success? && GetFileStats(statRequest, head).Success? && create.Some? ==>
      d == DownloadRun(Failure(create.value),
                       [CreateEmptyFile(GetFileStats(statRequest, head).value.fileName,
                                        GetFileStats(statRequest, head).value.length)], None)
    // the parts are the plan for the probed length under the validated configuration
    ensures d.parts.Some? ==>
      var conf := Validate(config).value;
      var length := GetFileStats(statRequest, head).value.length;
      d.parts.value == Parts(Plan(length, conf.chunkSize),
                             MaxProcesses(conf.maxNumParallelDownloads, length, conf.chunkSize),
                             conf.retries)
  {
    var validated := Validate(config);
    if !urlValid then DownloadRun(Failure(InvalidUrl), [], None)
    else if validated.Failure? then DownloadRun(Failure(validated.error), [], None)
    else
      var conf := validated.value;
      match GetFileStats(statRequest, head)
      case Failure(e) => DownloadRun(Failure(e), [], None)
      case Success(stat) =>
        var created := [CreateEmptyFile(stat.fileName, stat.length)];
        if create.Some? then DownloadRun(Failure(create.value), created, None)
        else
          var parts := Parts(Plan(stat.length, conf.chunkSize),
                             MaxProcesses(conf.maxNumParallelDownloads, stat.length, conf.chunkSize),
                             conf.retries);
          match FirstError(reports)
          case Some(e) => DownloadRun(Failure(e), created + [DeleteFile(stat.fileName)], Some(parts))
          case None => DownloadRun(Success(stat.fileName), created, Some(parts))
  }

  /** The reports of the tasks of `parts` when every task fetches its range
      from `server` and writes the body without error. */
  function ReportsAgainst(parts: Parts, server: Server): (reports: seq<Option<Error>>)
    ensures |reports| == |parts.chunks|
  {
    seq(|parts.chunks|, i requires 0 <= i < |parts.chunks| =>
      DownloadPart(GetFilePart(None, parts.chunks[i].start, parts.chunks[i].end, parts.retries, server).result, None))
  }

  /** Because GetFilePart passes the body of a final error response through
      as content, a server that answers every range request with 404 makes
      Download succeed: the error bodies are written into the file. The
      capacity of the `guard` channel must not be negative (see
      NothingToDownload). */
  lemma AlwaysFailingServerSucceeds(config: Settings, path: string, length: int, etag: string, body: string)
    requires Validate(config).Success?
    requires MaxProcesses(Validate(config).value.maxNumParallelDownloads, length, Validate(config).value.chunkSize) >= 0
    ensures var d0 := Download(config, true, Success(path), Success(HeadResponse(length, etag)), None, []);
      var server := (k: nat, h: string) => Response(404, body);
      var d := Download(config, true, Success(path), Success(HeadResponse(length, etag)), None,
                        ReportsAgainst(d0.parts.value, server));
      d.result == Success(BaseName(path)) && d.fs == [CreateEmptyFile(BaseName(path), length)]
  {
    var d0 := Download(config, true, Success(path), Success(HeadResponse(length, etag)), None, []);
    var server := (k: nat, h: string) => Response(404, body);
    var parts := d0.parts.value;
    var reports := ReportsAgainst(parts, server);
    forall i | 0 <= i < |reports| ensures reports[i].None? {
      var c := parts.chunks[i];
      ExhaustedBudget(0, c.start, c.end, parts.retries, server);
    }
  }

  /** A file of length zero (or of unknown length, -1) plans no range, so no
      task runs and Download returns the file name, keeping the file
      `CreateEmptyFile` made. The capacity of the `guard` channel must not be
      negative: `make` panics otherwise, which is not modelled. */
  lemma NothingToDownload(config: Settings, path: string, length: int, etag: string, server: Server)
    requires Validate(config).Success? && length <= 0
    requires MaxProcesses(Validate(config).value.maxNumParallelDownloads, length, Validate(config).value.chunkSize) >= 0
    ensures var d0 := Download(config, true, Success(path), Success(HeadResponse(length, etag)), None, []);
      var d := Download(config, true, Success(path), Success(HeadResponse(length, etag)), None,
                        ReportsAgainst(d0.parts.value, server));
      d.result == Success(BaseName(path)) && d.fs == [CreateEmptyFile(BaseName(path), length)]
      && d.parts.value.chunks == []
  {
    var d0 := Download(config, true, Success(path), Success(HeadResponse(length, etag)), None, []);
    PlanContiguous(length, Validate(config).value.chunkSize);
    assert ReportsAgainst(d0.parts.value, server) == [];
  }

  /** The end-to-end test of downloader_test.go: 43 bytes at "/testfile.txt", chunk size
      10, no parallelism limit, one retry, every task succeeding: five ranges,
      a `guard` capacity of five, and the file name is returned. */
  lemma DownloadTestFile(etag: string, reports: seq<Option<Error>>)
    requires forall i :: 0 <= i < |reports| ==> reports[i].None?
    ensures Download(Settings(0, 10, 1), true, Success("/" + "testfile.txt"), Success(HeadResponse(43, etag)), None, reports)
      == DownloadRun(Success("testfile.txt"), [CreateEmptyFile("testfile.txt", 43)],
                     Some(Parts([ChunkRange(0, 10), ChunkRange(10, 20), ChunkRange(20, 30),
                                 ChunkRange(30, 40), ChunkRange(40, 43)], 5, 1)))
  {
    GetFileStatsTestFile(43, etag);
    TestTextPlan();
    CeilDivUnique(43, 10, 5);
  }
}
