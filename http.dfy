/** The HTTP side of the downloader (internal/http/http.go): the metadata
    probe `GetFileStats` and the ranged fetch with bounded retry
    `GetFilePart`. The network is abstract: building a request either fails
    with an error or yields the request, and each request sent is answered by
    an abstract server. */
module Http {
  import opened Errors
  import opened Decimal
  import opened ChunkPlanner

  /** The metadata of the remote file (FileStat). */
  datatype FileStat = FileStat(length: int, hash: string, fileName: string)

  /** What a HEAD response contributes: `ContentLength` (-1 when the server
      gave none) and the `ETag` header (empty when absent). */
  datatype HeadResponse = HeadResponse(contentLength: int, etag: string)

  /** The outcome of one `Client.Do` for a range request. */
  datatype Attempt =
    | NoResponse(err: Error)                   // transport error, no response
    | Response(statusCode: int, body: string)  // any response, whatever its status

  /** The server answering the ranged requests: the outcome of the request
      with the given 0-based attempt number and Range header text. */
  type Server = (nat, string) -> Attempt

  /** The result of GetFilePart together with the Range header of every
      request sent, in order (one per attempt). */
  datatype Fetch = Fetch(result: Result<string>, sent: seq<string>)

  // ---------------------------------------------------------------------
  // File name: path.Base of the URL's path

  /** The text after the last '/', or all of `p` when it has none. */
  function LastSegment(p: string): (s: string)
    ensures '/' !in s
    ensures |s| <= |p| && s == p[|p| - |s|..]
    ensures |s| < |p| ==> p[|p| - |s| - 1] == '/'
    decreases |p|
  {
    if p == [] || p[|p| - 1] == '/' then [] else LastSegment(p[..|p| - 1]) + [p[|p| - 1]]
  }

  /** `p` without its trailing slashes. */
  function TrimTrailingSlashes(p: string): (t: string)
    ensures |t| <= |p| && t == p[..|t|]
    ensures t == [] || t[|t| - 1] != '/'
    ensures forall i :: |t| <= i < |p| ==> p[i] == '/'
    decreases |p|
  {
    if p != [] && p[|p| - 1] == '/' then TrimTrailingSlashes(p[..|p| - 1]) else p
  }

  /** Go's `path.Base`: "." for the empty path, "/" for a path of slashes
      only, otherwise the last element with trailing slashes removed. */
  function BaseName(p: string): (b: string)
    ensures b != []
    ensures p == [] ==> b == "."
    ensures b == "/" || b == "." || ('/' !in b && b == LastSegment(TrimTrailingSlashes(p)))
    ensures b == "/" <==> p != [] && forall i :: 0 <= i < |p| ==> p[i] == '/'
    ensures p != [] && LastSegment(TrimTrailingSlashes(p)) != [] ==> b == LastSegment(TrimTrailingSlashes(p))
  {
    if p == [] then "."
    else
      var last := LastSegment(TrimTrailingSlashes(p));
      if last == [] then "/" else last
  }

  /** The base name of a path ending in a slash-free element is that element. */
  lemma BaseNameOfElement(dir: string, name: string)
    requires name != [] && '/' !in name
    ensures BaseName(dir + "/" + name) == name
  {
    var p := dir + "/" + name;
    assert p[|p| - 1] == name[|name| - 1];
    assert TrimTrailingSlashes(p) == p;
    LastSegmentAfterSlash(dir + "/", name);
  }

  lemma {:induction false} LastSegmentAfterSlash(prefix: string, name: string)
    requires prefix != [] && prefix[|prefix| - 1] == '/' && '/' !in name
    ensures LastSegment(prefix + name) == name
    decreases |name|
  {
    if name == [] {
      assert prefix + name == prefix;
    } else {
      var p := prefix + name;
      assert p[..|p| - 1] == prefix + name[..|name| - 1];
      LastSegmentAfterSlash(prefix, name[..|name| - 1]);
      assert name == name[..|name| - 1] + [name[|name| - 1]];
    }
  }

  // ---------------------------------------------------------------------
  // GetFileStats

  /** GetFileStats: `request` is the outcome of building the HEAD request
      (the URL's path, or the error), `head` the outcome of sending it. A
      failure at either step is returned as is (with an empty FileStat in
      Go); there is no retry and the status code is not examined. */
  function GetFileStats(request: Result<string>, head: Result<HeadResponse>): (r: Result<FileStat>)
    ensures r.Success? <==> request.Success? && head.Success?
    ensures request.Failure? ==> r == Failure(request.error)
    ensures request.Success? && head.Failure? ==> r == Failure(head.error)
    ensures r.Success? ==> r.value.length == head.value.contentLength
    ensures r.Success? ==> r.value.hash == head.value.etag
    ensures r.Success? ==> r.value.fileName == BaseName(request.value)
  {
    match request
    case Failure(e) => Failure(e)
    case Success(path) =>
      match head
      case Failure(e) => Failure(e)
      case Success(resp) => Success(FileStat(resp.contentLength, resp.etag, BaseName(path)))
  }

  /** http_test.go: for ".../testfile.txt" the name is "testfile.txt" and
      length and ETag are copied from the response. */
  lemma GetFileStatsTestFile(length: int, etag: string)
    ensures GetFileStats(Success("/" + "testfile.txt"), Success(HeadResponse(length, etag)))
      == Success(FileStat(length, etag, "testfile.txt"))
  {
    var name := "testfile.txt";
    assert '/' !in name;
    BaseNameOfElement("", name);
    assert "" + "/" + name == "/" + name;
  }

  // ---------------------------------------------------------------------
  // Range header

  /** The Range header text `fmt.Sprintf("bytes=%d-%d", start, end)`;
      RangeHeaderRoundTrip states what it carries. */
  function RangeHeader(start: int, end: int): string
  {
    "bytes=" + IntToString(start) + "-" + IntToString(end)
  }

  /** The first index of '-' in `s`, if any. */
  function IndexOfDash(s: string): (r: Option<nat>)
    ensures r.Some? ==> r.value < |s| && s[r.value] == '-' && '-' !in s[..r.value]
    ensures r.None? ==> '-' !in s
  {
    if s == [] then None
    else if s[0] == '-' then Some(0)
    else
      match IndexOfDash(s[1..])
      case None => None
      case Some(i) => assert s[..i + 1] == [s[0]] + s[1..][..i]; Some(i + 1)
  }

  /** The two numbers of a header of the form `bytes=<digits>-<digits>`. */
  function ParseByteRange(h: string): Option<(nat, nat)>
  {
    if |h| < 6 || h[..6] != "bytes=" then None
    else
      var rest := h[6..];
      match IndexOfDash(rest)
      case None => None
      case Some(i) =>
        var first, last := rest[..i], rest[i + 1..];
        if first != [] && last != [] && AllDigits(first) && AllDigits(last)
        then Some((ParseDigits(first), ParseDigits(last)))
        else None
  }

  lemma {:induction false} IndexOfDashAfter(a: string, b: string)
    requires '-' !in a
    ensures IndexOfDash(a + "-" + b) == Some(|a|)
    decreases |a|
  {
    if a != [] {
      assert (a + "-" + b)[1..] == a[1..] + "-" + b;
      IndexOfDashAfter(a[1..], b);
    }
  }

  lemma DigitsHaveNoDash(a: string)
    requires AllDigits(a)
    ensures '-' !in a
  {
  }

  /** A header `bytes=<a>-<b>` with digit strings `a` and `b` parses to their values. */
  lemma ParseByteRangeDigits(a: string, b: string)
    requires a != [] && b != [] && AllDigits(a) && AllDigits(b)
    ensures ParseByteRange("bytes=" + a + "-" + b) == Some((ParseDigits(a), ParseDigits(b)))
  {
    var h := "bytes=" + a + "-" + b;
    var rest := a + "-" + b;
    assert h[..6] == "bytes=" && h[6..] == rest;
    DigitsHaveNoDash(a);
    IndexOfDashAfter(a, b);
    assert rest[..|a|] == a;
    assert rest[|a| + 1..] == b;
  }

  /** The bytes a server that follows section 14.1.2 of RFC 9110 sends for
      the header, as a half-open range: the last position is inclusive, so
      `bytes=first-last` selects `[first, min(last + 1, length))`. */
  function InclusiveSelection(h: string, length: int): Option<ChunkRange>
  {
    match ParseByteRange(h)
    case None => None
    case Some(p) =>
      if p.0 <= p.1 && p.0 < length
      then Some(ChunkRange(p.0, if p.1 + 1 < length then p.1 + 1 else length))
      else None
  }

  /** The bytes the test server of http_test.go sends for the header: it reads the
      second number as an exclusive end. */
  function ExclusiveSelection(h: string): Option<ChunkRange>
  {
    match ParseByteRange(h)
    case None => None
    case Some(p) => Some(ChunkRange(p.0, p.1))
  }

  /** The header carries the caller's `start` and `end` unchanged. */
  lemma RangeHeaderRoundTrip(start: nat, end: nat)
    ensures ParseByteRange(RangeHeader(start, end)) == Some((start, end))
  {
    ParseByteRangeDigits(NatToString(start), NatToString(end));
    ParseNatToString(start);
    ParseNatToString(end);
  }

  /** How the two readings of the header select bytes of a file of
      `length` bytes for a non-empty range `[start, end)` within it. */
  lemma HeaderSelections(start: nat, end: nat, length: int)
    requires start < end <= length
    ensures ExclusiveSelection(RangeHeader(start, end)) == Some(ChunkRange(start, end))
    ensures InclusiveSelection(RangeHeader(start, end), length)
      == Some(ChunkRange(start, if end < length then end + 1 else length))
  {
    RangeHeaderRoundTrip(start, end);
  }

  /** The header built from a planned range `[start, end)` asks a server that
      reads it as in RFC 9110 for one byte more than the range whenever the
      range is not the last: the first byte of the next range. Only a server
      that reads the end as exclusive, like the test server of http_test.go, gets
      exactly the range. */
  lemma PlannedRangeHeader(length: int, chunkSize: int, i: nat)
    requires chunkSize > 0 && i < |Plan(length, chunkSize)|
    ensures var c := Plan(length, chunkSize)[i];
      ExclusiveSelection(RangeHeader(c.start, c.end)) == Some(c)
    ensures var c := Plan(length, chunkSize)[i];
      InclusiveSelection(RangeHeader(c.start, c.end), length)
        == Some(ChunkRange(c.start, if c.end < length then c.end + 1 else length))
    ensures var r := Plan(length, chunkSize);
      i + 1 < |r| ==> InclusiveSelection(RangeHeader(r[i].start, r[i].end), length).value.Contains(r[i + 1].start)
  {
    var c := Plan(length, chunkSize)[i];
    PlanStep(length, chunkSize, i);
    if i + 1 < |Plan(length, chunkSize)| {
      PlanStep(length, chunkSize, i + 1);
    }
    HeaderSelections(c.start, c.end, length);
  }

  // ---------------------------------------------------------------------
  // GetFilePart

  /** A response that makes GetFilePart try again: a transport error or a
      status code of 300 or more. */
  predicate Retryable(a: Attempt)
    ensures a.NoResponse? ==> Retryable(a)
    ensures a.Response? && 200 <= a.statusCode < 300 ==> !Retryable(a)
    ensures a.Response? && 300 <= a.statusCode ==> Retryable(a)
  {
    a.NoResponse? || a.statusCode >= 300
  }

  /** What GetFilePart returns for its last attempt: the error of a transport
      failure, otherwise the body, whatever the status code. */
  function Deliver(a: Attempt): (r: Result<string>)
    ensures r.Failure? <==> a.NoResponse?
    ensures a.NoResponse? ==> r == Failure(a.err)
    ensures a.Response? ==> r == Success(a.body)
  {
    match a
    case NoResponse(e) => Failure(e)
    case Response(_, body) => Success(body)
  }

  /** The retry budget: a negative `retries` allows no retry. */
  function Budget(retries: int): nat {
    if retries > 0 then retries else 0
  }

  /** The server's answer to attempt `k` of a fetch of `[start, end)`. */
  function Answer(server: Server, k: nat, start: int, end: int): Attempt
  {
    server(k, RangeHeader(start, end))
  }

  /** GetFilePart from attempt number `attempt` on, with `retries` retries
      left. `request` is the error from building the request, if any; the
      same URL gives the same outcome on every call. Every request carries
      the caller's range; every attempt but the last was retryable; the last
      was not unless the budget ran out; the last decides the result. */
  function GetFilePartFrom(attempt: nat, request: Option<Error>, start: int, end: int,
                           retries: int, server: Server): (f: Fetch)
    ensures request.Some? ==> f == Fetch(Failure(request.value), [])
    ensures request.None? ==> 1 <= |f.sent| <= Budget(retries) + 1
    ensures forall j :: 0 <= j < |f.sent| ==> f.sent[j] == RangeHeader(start, end)
    ensures forall k :: attempt <= k < attempt + |f.sent| - 1 ==> Retryable(Answer(server, k, start, end))
    ensures request.None? && |f.sent| <= Budget(retries) ==>
      !Retryable(Answer(server, attempt + |f.sent| - 1, start, end))
    ensures request.None? ==> f.result == Deliver(Answer(server, attempt + |f.sent| - 1, start, end))
    decreases Budget(retries)
  {
    if request.Some? then Fetch(Failure(request.value), [])
    else
      var header := RangeHeader(start, end);
      var response := server(attempt, header);
      if Retryable(response) && retries > 0 then
        var rest := GetFilePartFrom(attempt + 1, request, start, end, retries - 1, server);
        Fetch(rest.result, [header] + rest.sent)
      else
        Fetch(Deliver(response), [header])
  }

  /** GetFilePart(ctx, url, start, end, retries): a request that cannot be
      built is returned at once; otherwise 1 to `retries + 1` requests, all
      with the same Range header; the last answer is not retryable unless the
      budget ran out, and it decides the result. */
  function GetFilePart(request: Option<Error>, start: int, end: int, retries: int, server: Server): (f: Fetch)
    ensures request.Some? ==> f == Fetch(Failure(request.value), [])
    ensures request.None? ==> 1 <= |f.sent| <= Budget(retries) + 1
    ensures forall j :: 0 <= j < |f.sent| ==> f.sent[j] == RangeHeader(start, end)
    ensures forall k :: 0 <= k < |f.sent| - 1 ==> Retryable(Answer(server, k, start, end))
    ensures request.None? && |f.sent| <= Budget(retries) ==> !Retryable(Answer(server, |f.sent| - 1, start, end))
    ensures request.None? ==> f.result == Deliver(Answer(server, |f.sent| - 1, start, end))
  {
    GetFilePartFrom(0, request, start, end, retries, server)
  }

  /** A request that cannot be built is reported at once: nothing is sent. */
  lemma RequestErrorNotRetried(err: Error, start: int, end: int, retries: int, server: Server)
    ensures GetFilePart(Some(err), start, end, retries, server) == Fetch(Failure(err), [])
  {
  }

  /** The first attempt that neither fails in transport nor gets a status of
      300 or more ends the retries, and its body is the result: GetFilePart
      makes exactly `n + 1` attempts when the first `n` are retryable,
      `n <= retries`, and attempt `n` is not. */
  lemma {:induction false} StopsAtFirstSuccess(attempt: nat, start: int, end: int, retries: int,
                                              server: Server, n: nat)
    requires n <= Budget(retries)
    requires forall k :: attempt <= k < attempt + n ==> Retryable(Answer(server, k, start, end))
    requires !Retryable(Answer(server, attempt + n, start, end))
    ensures var f := GetFilePartFrom(attempt, None, start, end, retries, server);
      |f.sent| == n + 1 && f.result == Success(Answer(server, attempt + n, start, end).body)
    decreases n
  {
    if n > 0 {
      assert Retryable(Answer(server, attempt, start, end));
      StopsAtFirstSuccess(attempt + 1, start, end, retries - 1, server, n - 1);
    }
  }

  /** When every attempt within the budget fails, `retries + 1` attempts are
      made and the last one decides: a response with a status of 300 or more
      is returned as a successful body, a
      transport error as that error. */
  lemma {:induction false} ExhaustedBudget(attempt: nat, start: int, end: int, retries: int, server: Server)
    requires forall k :: attempt <= k < attempt + Budget(retries) ==> Retryable(Answer(server, k, start, end))
    ensures var f := GetFilePartFrom(attempt, None, start, end, retries, server);
      var last := Answer(server, attempt + Budget(retries), start, end);
      && |f.sent| == Budget(retries) + 1
      && (last.Response? ==> f.result == Success(last.body))
      && (last.NoResponse? ==> f.result == Failure(last.err))
    decreases Budget(retries)
  {
    if retries > 0 {
      assert Retryable(Answer(server, attempt, start, end));
      ExhaustedBudget(attempt + 1, start, end, retries - 1, server);
      var f := GetFilePartFrom(attempt, None, start, end, retries, server);
      var rest := GetFilePartFrom(attempt + 1, None, start, end, retries - 1, server);
      assert f == Fetch(rest.result, [RangeHeader(start, end)] + rest.sent);
    }
  }

  /** The text the tests of http_test.go serve. */
  const TestText: string := "Some f" + "aket" + "est Some fake test Some fake test"

  /** The test server of http_test.go: the slice of the text between the two
      numbers of the Range header, with status 200. */
  function TestServer(attempt: nat, header: string): Attempt
  {
    match ExclusiveSelection(header)
    case Some(c) =>
      if 0 <= c.start <= c.end <= |TestText|
      then Response(200, TestText[c.start..c.end])
      else NoResponse(TransportError("EOF"))
    case None => NoResponse(TransportError("EOF"))
  }

  lemma TestTextSlice()
    ensures TestText[6..10] == "aket"
  {
    var before, slice := "Some f", "aket";
    assert TestText[|before|..|before| + |slice|] == slice;
  }

  /** Fetching `(6, 10)` from the test server yields "aket" in one attempt. */
  lemma RangeSixToTen()
    ensures GetFilePart(None, 6, 10, 0, TestServer) == Fetch(Success("aket"), ["bytes=6-10"])
  {
    HeaderSelections(6, 10, |TestText|);
    TestTextSlice();
    assert TestServer(0, RangeHeader(6, 10)) == Response(200, "aket");
    assert RangeHeader(6, 10) == "bytes=6-10";
    StopsAtFirstSuccess(0, 6, 10, 0, TestServer, 0);
  }

  /** A server that answers 404 "fail" to the first request and 200 "success"
      afterwards, with `retries = 5`: two attempts, body "success". */
  lemma SuccessfulAfterRetry()
    ensures var server := (k: nat, h: string) => if k == 1 then Response(200, "success") else Response(404, "fail");
      var f := GetFilePart(None, 6, 10, 5, server);
      |f.sent| == 2 && f.result == Success("success")
  {
    var server := (k: nat, h: string) => if k == 1 then Response(200, "success") else Response(404, "fail");
    StopsAtFirstSuccess(0, 6, 10, 5, server, 1);
  }

  /** A server that always answers 404 "fail", with `retries = 2`: three
      attempts, and "fail" comes back as a successful body. */
  lemma FailAfterRetry()
    ensures var server := (k: nat, h: string) => Response(404, "fail");
      var f := GetFilePart(None, 6, 10, 2, server);
      |f.sent| == 3 && f.result == Success("fail")
  {
    var server := (k: nat, h: string) => Response(404, "fail");
    ExhaustedBudget(0, 6, 10, 2, server);
  }

  /** A connection that always fails, with `retries = 2`: the transport error
      comes back after three attempts. */
  lemma ConnectFailure()
    ensures var err := TransportError("simulated network error");
      var f := GetFilePart(None, 6, 10, 2, (k: nat, h: string) => NoResponse(err));
      |f.sent| == 3 && f.result == Failure(err)
  {
    var err := TransportError("simulated network error");
    ExhaustedBudget(0, 6, 10, 2, (k: nat, h: string) => NoResponse(err));
  }
}
