/**
 * The HTTP downloader (src/import/downloader/http.rs): the bounded redirect
 * walk, the retry loop with resumption, and what `process_response` makes of
 * a response (the destination name, the total size and the byte count).
 *
 * The network is a parameter: `send` answers a request, `resolve` joins a
 * Location value onto the URL it came from (`Url::parse` then `join`), and
 * an attempt of the retry loop is a function of the attempt number and the
 * offset it resumes from. Sleeping becomes the number of seconds waited.
 */
module Http {
  import opened Wrappers
  import opened Strings
  import opened Numbers
  import opened DownloadModels

  /** `Downloader::new`: redirects followed by hand, at most this many. */
  const DEFAULT_MAX_REDIRECTS: nat := 10
  /** `MAX_RETRIES` of the retry loop. */
  const MAX_RETRIES: nat := 3

  datatype ErrorKind = Interrupted | ConnectionReset | ConnectionAborted | TimedOut | WouldBlock | InvalidData | InvalidInput | Other

  /**
   * An `io::Error`: its kind, its text, and the byte count of the
   * `PartialDownloadError` it carries when a stream broke off.
   */
  datatype IoError = IoError(kind: ErrorKind, message: string, partial: Option<nat>)

  /** The error of a cancelled download. */
  const CANCELLED := IoError(Interrupted, "Download cancelled", None)

  /** A request: the URL and the value of its `Range` header, if any. */
  datatype Request = Request(url: string, range: Option<string>)

  /** The parts of a response the downloader reads. Header values are the raw header text. */
  datatype Response = Response(
    status: nat,
    location: Option<string>,
    contentLength: Option<string>,
    contentRange: Option<string>,
    contentDisposition: Option<string>)

  /** `StatusCode::is_success`. */
  predicate IsSuccess(status: nat)
  {
    200 <= status < 300
  }

  /** `StatusCode::is_redirection`. */
  predicate IsRedirection(status: nat)
  {
    300 <= status < 400
  }

  /** `HeaderValue::to_str` succeeds: only tabs and visible ASCII. */
  predicate HeaderStr(s: string)
  {
    forall i :: 0 <= i < |s| ==> s[i] == '\t' || (' ' <= s[i] && s[i] as int < 127)
  }

  /** 2 to the power `n`. */
  function Pow2(n: nat): (r: nat)
    ensures r >= 1
  {
    if n == 0 then 1 else 2 * Pow2(n - 1)
  }

  // ---------------------------------------------------------------------------
  // `get_with_redirects`

  /**
   * The redirect walk from the `count`-th redirect on: send the request;
   * hand back a response that is not a redirect, or any response once
   * `maxRedirects` redirects were followed; otherwise follow its Location.
   * Every request carries the same `range`. Returns the outcome and the
   * requests made.
   */
  function Redirects(send: Request -> Result<Response, string>, resolve: (string, string) -> Result<string, string>,
                     url: string, range: Option<string>, maxRedirects: nat, count: nat): (res: (Result<Response, IoError>, seq<Request>))
    requires count <= maxRedirects
    ensures 1 <= |res.1| <= maxRedirects - count + 1
    ensures res.1[0] == Request(url, range)
    ensures forall i :: 0 <= i < |res.1| ==> res.1[i].range == range
    ensures res.0.Ok? ==> send(res.1[|res.1| - 1]) == Ok(res.0.value)
    ensures res.0.Ok? && IsRedirection(res.0.value.status) ==> |res.1| == maxRedirects - count + 1
    decreases maxRedirects - count
  {
    var req := Request(url, range);
    match send(req)
    case Err(e) => (Err(IoError(Other, e, None)), [req])
    case Ok(resp) =>
      if !IsRedirection(resp.status) || count >= maxRedirects then (Ok(resp), [req])
      else match resp.location
        case None => (Err(IoError(InvalidData, "Redirect without Location header", None)), [req])
        case Some(loc) =>
          if !HeaderStr(loc) then (Err(IoError(InvalidData, "failed to convert header to a str", None)), [req])
          else match resolve(url, loc)
            case Err(e) => (Err(IoError(InvalidInput, e, None)), [req])
            case Ok(next) =>
              var rest := Redirects(send, resolve, next, range, maxRedirects, count + 1);
              (rest.0, [req] + rest.1)
  }

  /**
   * `get_with_redirects`: the loop over `current_url` and `redirect_count`.
   * Its requests carry no `Range` header.
   */
  method GetWithRedirects(send: Request -> Result<Response, string>, resolve: (string, string) -> Result<string, string>,
                          url: string, maxRedirects: nat) returns (r: Result<Response, IoError>, requests: seq<Request>)
    ensures (r, requests) == Redirects(send, resolve, url, None, maxRedirects, 0)
  {
    var current := url;
    var count := 0;
    requests := [];
    assert requests + Redirects(send, resolve, url, None, maxRedirects, 0).1 == Redirects(send, resolve, url, None, maxRedirects, 0).1;
    while true
      invariant count <= maxRedirects
      invariant Redirects(send, resolve, url, None, maxRedirects, 0) ==
                (Redirects(send, resolve, current, None, maxRedirects, count).0,
                 requests + Redirects(send, resolve, current, None, maxRedirects, count).1)
      decreases maxRedirects - count
    {
      var req := Request(current, None);
      ghost var before := requests;
      requests := requests + [req];
      match send(req)
      case Err(e) =>
        return Err(IoError(Other, e, None)), requests;
      case Ok(resp) =>
        if !IsRedirection(resp.status) || count >= maxRedirects {
          return Ok(resp), requests;
        }
        match resp.location
        case None =>
          return Err(IoError(InvalidData, "Redirect without Location header", None)), requests;
        case Some(loc) =>
          if !HeaderStr(loc) {
            return Err(IoError(InvalidData, "failed to convert header to a str", None)), requests;
          }
          match resolve(current, loc)
          case Err(e) =>
            return Err(IoError(InvalidInput, e, None)), requests;
          case Ok(next) =>
            ghost var rest := Redirects(send, resolve, next, None, maxRedirects, count + 1);
            assert Redirects(send, resolve, current, None, maxRedirects, count) == (rest.0, [req] + rest.1);
            assert before + ([req] + rest.1) == requests + rest.1;
            current := next;
            count := count + 1;
    }
  }

  /** With the default bound, at most eleven requests are made, and a redirect is only handed back after ten were followed. */
  lemma DefaultRedirectBound(send: Request -> Result<Response, string>, resolve: (string, string) -> Result<string, string>, url: string)
    ensures |Redirects(send, resolve, url, None, DEFAULT_MAX_REDIRECTS, 0).1| <= 11
    ensures var res := Redirects(send, resolve, url, None, DEFAULT_MAX_REDIRECTS, 0);
            res.0.Ok? && IsRedirection(res.0.value.status) ==> |res.1| == 11
  {
  }

  // ---------------------------------------------------------------------------
  // `download_with_retry_internal`: the request of one attempt

  /** The `Range` header of an attempt resuming from `resumeFrom` (section 14.2 of RFC 9110). */
  function RangeHeader(resumeFrom: nat): (r: Option<string>)
    ensures r.Some? <==> resumeFrom > 0
    ensures r.Some? ==> StartsWith(r.value, "bytes=") && EndsWith(r.value, "-")
  {
    if resumeFrom > 0 then Some("bytes=" + DecimalString(resumeFrom) + "-") else None
  }

  /** The server reads back the offset the range asks for. */
  lemma RangeHeaderOffset(resumeFrom: nat)
    requires 0 < resumeFrom <= U64_MAX
    ensures var v := RangeHeader(resumeFrom).value; ParseU64(v[6..|v| - 1]) == Some(resumeFrom)
  {
    var v := RangeHeader(resumeFrom).value;
    assert v[6..|v| - 1] == DecimalString(resumeFrom);
    ParseDecimal(resumeFrom);
  }

  /**
   * The response `process_response` is given, and the requests made, for an
   * attempt resuming from `resumeFrom`, as the source does it: the ranged
   * request first; if that is answered with a redirect, the redirect walk
   * restarts from `url` without a `Range` header.
   */
  function AttemptRequests(send: Request -> Result<Response, string>, resolve: (string, string) -> Result<string, string>,
                           url: string, resumeFrom: nat, maxRedirects: nat): (res: (Result<Response, IoError>, seq<Request>))
    ensures |res.1| >= 1 && res.1[0] == Request(url, RangeHeader(resumeFrom))
    ensures forall i :: 1 <= i < |res.1| ==> res.1[i].range.None?
  {
    var first := Request(url, RangeHeader(resumeFrom));
    match send(first)
    case Err(e) => (Err(IoError(Other, e, None)), [first])
    case Ok(resp) =>
      if IsRedirection(resp.status) then
        var walk := Redirects(send, resolve, url, None, maxRedirects, 0);
        (walk.0, [first] + walk.1)
      else (Ok(resp), [first])
  }

  /**
   * A resumed attempt whose ranged request is redirected processes the
   * answer to a request without `Range`, while its byte count still starts at
   * `resumeFrom`.
   */
  lemma ResumeLosesRange(send: Request -> Result<Response, string>, resolve: (string, string) -> Result<string, string>,
                         url: string, resumeFrom: nat, maxRedirects: nat)
    requires resumeFrom > 0
    requires send(Request(url, RangeHeader(resumeFrom))).Ok? && IsRedirection(send(Request(url, RangeHeader(resumeFrom))).value.status)
    ensures var res := AttemptRequests(send, resolve, url, resumeFrom, maxRedirects);
            |res.1| >= 2 && res.1[1] == Request(url, None) && RangeHeader(resumeFrom).Some?
  {
  }

  /** The intended attempt: the redirect walk keeps the `Range` header of the attempt. */
  function AttemptRequestsRanged(send: Request -> Result<Response, string>, resolve: (string, string) -> Result<string, string>,
                                 url: string, resumeFrom: nat, maxRedirects: nat): (res: (Result<Response, IoError>, seq<Request>))
    ensures |res.1| >= 1 && res.1[0] == Request(url, RangeHeader(resumeFrom))
    ensures forall i :: 0 <= i < |res.1| ==> res.1[i].range == RangeHeader(resumeFrom)
    ensures res.0.Ok? ==> send(res.1[|res.1| - 1]) == Ok(res.0.value)
  {
    var first := Request(url, RangeHeader(resumeFrom));
    match send(first)
    case Err(e) => (Err(IoError(Other, e, None)), [first])
    case Ok(resp) =>
      if IsRedirection(resp.status) then
        var walk := Redirects(send, resolve, url, RangeHeader(resumeFrom), maxRedirects, 0);
        (walk.0, [first] + walk.1)
      else (Ok(resp), [first])
  }

  // ---------------------------------------------------------------------------
  // `download_file_with_progress_cancellable`: the retry loop

  /** Whether a failed attempt is tried again. */
  predicate IsRetryable(e: IoError)
  {
    e.kind in {ConnectionReset, ConnectionAborted, TimedOut, WouldBlock} ||
    Contains(e.message, "network") || Contains(e.message, "connection") || Contains(e.message, "timeout")
  }

  /** `downloaded_so_far` after a failed attempt: raised to the partial byte count when that is larger. */
  function NextResume(soFar: nat, e: IoError): (r: nat)
    ensures r >= soFar
    ensures e.partial.Some? ==> r == if e.partial.value > soFar then e.partial.value else soFar
    ensures e.partial.None? ==> r == soFar
  {
    if e.partial.Some? && e.partial.value > soFar then e.partial.value else soFar
  }

  /** Seconds slept before attempt `n`: none before the first, 2^n before retry n. */
  function Backoff(n: nat): nat
  {
    if n == 0 then 0 else Pow2(n)
  }

  /** One attempt of the retry loop: the offset it resumed from and the seconds waited before it. */
  datatype AttemptLog = AttemptLog(resumeFrom: nat, waitSecs: nat)

  /**
   * The retry loop from attempt `n` on, resuming from `soFar`. Before a
   * retry, a cancellation ends the loop. A success, a cancellation error, a
   * non-retryable error or the error of the last allowed attempt is returned
   * as it is. Returns the outcome and the attempts made.
   */
  function Retry(attempt: (nat, nat) -> Result<string, IoError>, cancelled: nat -> bool, n: nat, soFar: nat)
    : (res: (Result<string, IoError>, seq<AttemptLog>))
    requires n <= MAX_RETRIES
    ensures |res.1| <= MAX_RETRIES + 1 - n
    ensures res.1 == [] <==> n > 0 && cancelled(n)
    ensures res.1 == [] ==> res.0 == Err(CANCELLED)
    ensures res.1 != [] ==> res.1[0] == AttemptLog(soFar, Backoff(n))
    decreases MAX_RETRIES - n
  {
    if n > 0 && cancelled(n) then (Err(CANCELLED), [])
    else
      var here := AttemptLog(soFar, Backoff(n));
      match attempt(n, soFar)
      case Ok(path) => (Ok(path), [here])
      case Err(e) =>
        if e.kind != Interrupted && IsRetryable(e) && n < MAX_RETRIES then
          var rest := Retry(attempt, cancelled, n + 1, NextResume(soFar, e));
          (rest.0, [here] + rest.1)
        else (Err(e), [here])
  }

  /** Attempt `n` failed with an error that is retried. */
  predicate Retried(attempt: (nat, nat) -> Result<string, IoError>, cancelled: nat -> bool, n: nat, soFar: nat)
  {
    !(n > 0 && cancelled(n)) && attempt(n, soFar).Err? && attempt(n, soFar).error.kind != Interrupted &&
    IsRetryable(attempt(n, soFar).error) && n < MAX_RETRIES
  }

  /** A retried attempt is followed by the loop from the next attempt, resuming from the updated offset. */
  lemma RetryUnfold(attempt: (nat, nat) -> Result<string, IoError>, cancelled: nat -> bool, n: nat, soFar: nat)
    requires n <= MAX_RETRIES
    ensures Retried(attempt, cancelled, n, soFar) ==>
              var rest := Retry(attempt, cancelled, n + 1, NextResume(soFar, attempt(n, soFar).error));
              Retry(attempt, cancelled, n, soFar) == (rest.0, [AttemptLog(soFar, Backoff(n))] + rest.1)
    ensures !Retried(attempt, cancelled, n, soFar) ==> |Retry(attempt, cancelled, n, soFar).1| <= 1
  {
  }

  /**
   * `download_file_with_progress_cancellable`: `retry_count` and
   * `downloaded_so_far` updated until an attempt's outcome is final.
   */
  method DownloadWithRetries(attempt: (nat, nat) -> Result<string, IoError>, cancelled: nat -> bool)
    returns (r: Result<string, IoError>, log: seq<AttemptLog>)
    ensures (r, log) == Retry(attempt, cancelled, 0, 0)
  {
    var retryCount := 0;
    var soFar := 0;
    log := [];
    assert log + Retry(attempt, cancelled, 0, 0).1 == Retry(attempt, cancelled, 0, 0).1;
    while retryCount <= MAX_RETRIES
      invariant retryCount <= MAX_RETRIES
      invariant Retry(attempt, cancelled, 0, 0) ==
                (Retry(attempt, cancelled, retryCount, soFar).0, log + Retry(attempt, cancelled, retryCount, soFar).1)
      decreases MAX_RETRIES - retryCount
    {
      if retryCount > 0 && cancelled(retryCount) {
        assert log + [] == log;
        return Err(CANCELLED), log;
      }
      ghost var before := log;
      var here := AttemptLog(soFar, Backoff(retryCount));
      log := log + [here];
      RetryUnfold(attempt, cancelled, retryCount, soFar);
      match attempt(retryCount, soFar)
      case Ok(path) =>
        return Ok(path), log;
      case Err(e) =>
        if e.kind == Interrupted {
          return Err(e), log;
        }
        var next := NextResume(soFar, e);
        if IsRetryable(e) && retryCount < MAX_RETRIES {
          ghost var rest := Retry(attempt, cancelled, retryCount + 1, next);
          assert before + ([here] + rest.1) == log + rest.1;
          soFar := next;
          retryCount := retryCount + 1;
        } else {
          return Err(e), log;
        }
    }
    assert false;
  }

  /**
   * Attempt `n + i` waited 2^(n + i) seconds (none for the very first) and
   * resumed from at least `soFar`; every attempt but the last failed with a
   * retryable error, and the next one resumed from the updated offset.
   */
  lemma {:induction false} RetryAttempts(attempt: (nat, nat) -> Result<string, IoError>, cancelled: nat -> bool, n: nat, soFar: nat, i: nat)
    requires n <= MAX_RETRIES && i < |Retry(attempt, cancelled, n, soFar).1|
    ensures var log := Retry(attempt, cancelled, n, soFar).1;
            log[i].waitSecs == Backoff(n + i) && soFar <= log[i].resumeFrom
    ensures var log := Retry(attempt, cancelled, n, soFar).1;
            i < |log| - 1 ==> Retried(attempt, cancelled, n + i, log[i].resumeFrom) &&
                              log[i + 1].resumeFrom == NextResume(log[i].resumeFrom, attempt(n + i, log[i].resumeFrom).error)
    decreases i
  {
    RetryUnfold(attempt, cancelled, n, soFar);
    if i > 0 {
      var next := NextResume(soFar, attempt(n, soFar).error);
      RetryAttempts(attempt, cancelled, n + 1, next, i - 1);
    }
  }

  /**
   * What the loop from attempt `n` returned is the outcome of its last
   * attempt, unless that attempt was retried and the download was cancelled
   * before the next one.
   */
  predicate EndsWithLastAttempt(attempt: (nat, nat) -> Result<string, IoError>, cancelled: nat -> bool, n: nat,
                                res: (Result<string, IoError>, seq<AttemptLog>))
  {
    res.1 != [] ==>
      var k := |res.1| - 1;
      res.0 == attempt(n + k, res.1[k].resumeFrom) ||
      (res.0 == Err(CANCELLED) && Retried(attempt, cancelled, n + k, res.1[k].resumeFrom) && cancelled(n + k + 1))
  }

  /** The loop's result is the outcome of its last attempt, or the cancellation that followed it. */
  lemma {:induction false} RetryOutcome(attempt: (nat, nat) -> Result<string, IoError>, cancelled: nat -> bool, n: nat, soFar: nat)
    requires n <= MAX_RETRIES
    ensures EndsWithLastAttempt(attempt, cancelled, n, Retry(attempt, cancelled, n, soFar))
    decreases MAX_RETRIES - n
  {
    if Retried(attempt, cancelled, n, soFar) {
      var next := NextResume(soFar, attempt(n, soFar).error);
      RetryOutcome(attempt, cancelled, n + 1, next);
      RetryOutcomeShift(attempt, cancelled, n, soFar);
    } else {
      RetryUnfold(attempt, cancelled, n, soFar);
    }
  }

  /** A retried first attempt passes the property of the rest of the loop on to the whole loop. */
  lemma RetryOutcomeShift(attempt: (nat, nat) -> Result<string, IoError>, cancelled: nat -> bool, n: nat, soFar: nat)
    requires n <= MAX_RETRIES && Retried(attempt, cancelled, n, soFar)
    requires EndsWithLastAttempt(attempt, cancelled, n + 1,
                                 Retry(attempt, cancelled, n + 1, NextResume(soFar, attempt(n, soFar).error)))
    ensures EndsWithLastAttempt(attempt, cancelled, n, Retry(attempt, cancelled, n, soFar))
  {
    RetryUnfold(attempt, cancelled, n, soFar);
    var rest := Retry(attempt, cancelled, n + 1, NextResume(soFar, attempt(n, soFar).error));
    var res := Retry(attempt, cancelled, n, soFar);
    if rest.1 != [] {
      var k := |rest.1|;
      assert res.1[k] == rest.1[k - 1];
      assert n + k == (n + 1) + (k - 1);
    }
  }

  /** At most four attempts are made, the first one at once and from offset 0. */
  lemma AttemptBound(attempt: (nat, nat) -> Result<string, IoError>, cancelled: nat -> bool)
    ensures var log := Retry(attempt, cancelled, 0, 0).1;
            1 <= |log| <= 4 && log[0] == AttemptLog(0, 0)
  {
  }

  /** An error that is not retryable, or a cancellation, ends the loop at the attempt that raised it. */
  lemma {:induction false} FinalErrorStops(attempt: (nat, nat) -> Result<string, IoError>, cancelled: nat -> bool, n: nat, soFar: nat)
    requires n <= MAX_RETRIES && !(n > 0 && cancelled(n))
    requires attempt(n, soFar).Err?
    requires attempt(n, soFar).error.kind == Interrupted || !IsRetryable(attempt(n, soFar).error)
    ensures Retry(attempt, cancelled, n, soFar) == (attempt(n, soFar), [AttemptLog(soFar, Backoff(n))])
  {
  }

  /** The offsets successive attempts resume from never go down. */
  lemma {:induction false} ResumeMonotone(attempt: (nat, nat) -> Result<string, IoError>, cancelled: nat -> bool, n: nat, soFar: nat, i: nat, j: nat)
    requires n <= MAX_RETRIES
    requires i <= j < |Retry(attempt, cancelled, n, soFar).1|
    ensures Retry(attempt, cancelled, n, soFar).1[i].resumeFrom <= Retry(attempt, cancelled, n, soFar).1[j].resumeFrom
    decreases j - i
  {
    if i < j {
      RetryAttempts(attempt, cancelled, n, soFar, i);
      ResumeMonotone(attempt, cancelled, n, soFar, i + 1, j);
    }
  }

  // ---------------------------------------------------------------------------
  // `process_response`

  /**
   * The total size: from Content-Length plus the resumed offset; failing a
   * Content-Length header, the part after '/' of a Content-Range split in
   * exactly two (section 14.4 of RFC 9110); otherwise unknown.
   */
  function TotalSize(contentLength: Option<string>, contentRange: Option<string>, resumeFrom: nat): (r: Option<nat>)
    ensures contentLength.Some? ==> (r.Some? <==> HeaderStr(contentLength.value) && ParseU64(contentLength.value).Some?)
    ensures contentLength.Some? && r.Some? ==> r.value == ParseU64(contentLength.value).value + resumeFrom
    ensures contentLength.None? && contentRange.None? ==> r.None?
    ensures contentLength.None? && r.Some? ==> contentRange.Some? && Count(contentRange.value, '/') == 1
  {
    match contentLength
    case Some(cl) =>
      if HeaderStr(cl) && ParseU64(cl).Some? then
        var len := ParseU64(cl).value;
        Some(if resumeFrom > 0 then len + resumeFrom else len)
      else None
    case None =>
      match contentRange
      case Some(range) =>
        SplitCount(range, '/');
        if HeaderStr(range) && |Split(range, '/')| == 2 then ParseU64(Split(range, '/')[1]) else None
      case None => None
  }

  /** A decimal number is header text without a '/'. */
  lemma DecimalPlain(n: nat)
    ensures HeaderStr(DecimalString(n)) && '/' !in DecimalString(n)
  {
    var d := DecimalString(n);
    assert forall i :: 0 <= i < |d| ==> IsDigit(d[i]);
  }

  /** `Content-Range: <range>/<total>` without Content-Length gives `total`. */
  lemma ContentRangeTotal(range: string, total: nat, resumeFrom: nat)
    requires HeaderStr(range) && '/' !in range && total <= U64_MAX
    ensures TotalSize(None, Some(range + "/" + DecimalString(total)), resumeFrom) == Some(total)
  {
    var d := DecimalString(total);
    var cr := range + "/" + d;
    DecimalPlain(total);
    assert cr == range + ['/'] + d;
    assert HeaderStr(cr) by {
      forall i | 0 <= i < |cr|
        ensures cr[i] == '\t' || (' ' <= cr[i] && cr[i] as int < 127)
      {
        if i < |range| {
          assert cr[i] == range[i];
        } else if i > |range| {
          assert cr[i] == d[i - |range| - 1];
        }
      }
    }
    assert Split(cr, '/') == [range, d] by {
      SplitAroundOne(range, '/', d);
    }
    ParseDecimal(total);
  }

  /** `Content-Length: <n>` gives `n` plus the resumed offset, whatever Content-Range says. */
  lemma ContentLengthTotal(n: nat, contentRange: Option<string>, resumeFrom: nat)
    requires n <= U64_MAX
    ensures TotalSize(Some(DecimalString(n)), contentRange, resumeFrom) == Some(n + resumeFrom)
  {
    DecimalPlain(n);
    ParseDecimal(n);
  }

  /** `Path::join` of a directory and a file name: a name that is an absolute path replaces the directory. */
  function JoinPath(dir: string, name: string): (r: string)
    ensures EndsWith(r, name)
  {
    if StartsWith(name, "/") then name
    else if dir == [] || EndsWith(dir, "/") then dir + name
    else dir + "/" + name
  }

  /**
   * The file name used when the output path is a directory: the
   * Content-Disposition filename, else the last segment of the URL path
   * (`urlName`), else `download_<now>.bin`. A Content-Disposition value that
   * is not header text is an error.
   */
  function FileName(contentDisposition: Option<string>, urlName: Option<string>, now: nat): (r: Result<string, IoError>)
    ensures r.Err? <==> contentDisposition.Some? && !HeaderStr(contentDisposition.value)
    ensures r.Err? ==> r.error.kind == InvalidData
    ensures r.Ok? && contentDisposition.Some? && ParseContentDisposition(contentDisposition.value).Some? ==>
              r.value == ParseContentDisposition(contentDisposition.value).value
    ensures r.Ok? && (contentDisposition.None? || ParseContentDisposition(contentDisposition.value).None?) ==>
              r.value == if urlName.Some? then urlName.value else "download_" + DecimalString(now) + ".bin"
  {
    var fromHeader: Result<Option<string>, IoError> :=
      match contentDisposition
      case None => Ok(None)
      case Some(cd) =>
        if HeaderStr(cd) then Ok(ParseContentDisposition(cd))
        else Err(IoError(InvalidData, "failed to convert header to a str", None));
    match fromHeader
    case Err(e) => Err(e)
    case Ok(Some(name)) => Ok(name)
    case Ok(None) =>
      match urlName
      case Some(name) => Ok(name)
      case None => Ok("download_" + DecimalString(now) + ".bin")
  }

  /** The header the index server sends names the file it serves. */
  lemma ServedNameKept(name: string, urlName: Option<string>, now: nat)
    requires '"' !in name && HeaderStr(name)
    ensures FileName(Some("attachment; filename=\"" + name + "\""), urlName, now) == Ok(name)
  {
    AttachmentIsHeaderText(name);
    ParseAttachmentHeader(name);
  }

  /** The attachment header around header text is header text. */
  lemma AttachmentIsHeaderText(name: string)
    requires HeaderStr(name)
    ensures HeaderStr("attachment; filename=\"" + name + "\"")
  {
    var head := "attachment; filename=\"";
    assert HeaderStr(head);
    assert HeaderStr("\"");
    HeaderStrAppend(head, name);
    HeaderStrAppend(head + name, "\"");
  }

  /** Header text joined to header text is header text. */
  lemma HeaderStrAppend(a: string, b: string)
    requires HeaderStr(a) && HeaderStr(b)
    ensures HeaderStr(a + b)
  {
    assert forall i :: |a| <= i < |a + b| ==> (a + b)[i] == b[i - |a|];
  }

  /** A piece of the response body stream. */
  datatype Chunk = Data(len: nat) | StreamError(message: string)

  /** Bytes carried by the chunks. */
  function Received(chunks: seq<Chunk>): nat
  {
    if chunks == [] then 0
    else Received(chunks[..|chunks| - 1]) + (if chunks[|chunks| - 1].Data? then chunks[|chunks| - 1].len else 0)
  }

  /** Bytes received over chunks one further. */
  lemma ReceivedStep(chunks: seq<Chunk>, i: nat)
    requires i < |chunks|
    ensures Received(chunks[..i + 1]) == Received(chunks[..i]) + (if chunks[i].Data? then chunks[i].len else 0)
  {
    assert chunks[..i + 1][..i] == chunks[..i];
  }

  /**
   * The progress updates sent while streaming the chunks `done`: the initial
   * one, then one per chunk with the count so far.
   */
  function Reports(total: Option<nat>, resumeFrom: nat, done: seq<Chunk>, path: string): (r: seq<Progress>)
    ensures |r| == |done| + 1
  {
    if done == [] then [Progress(total, resumeFrom, Downloading, Some(path))]
    else Reports(total, resumeFrom, done[..|done| - 1], path) + [Progress(total, resumeFrom + Received(done), Downloading, Some(path))]
  }

  /**
   * The updates of a stream of data chunks report the total and the path,
   * start at the resumed offset and count every byte received so far.
   */
  lemma {:induction false} ReportsAt(total: Option<nat>, resumeFrom: nat, done: seq<Chunk>, path: string)
    ensures forall k :: 0 <= k < |done| + 1 ==>
              Reports(total, resumeFrom, done, path)[k] == Progress(total, resumeFrom + Received(done[..k]), Downloading, Some(path))
    decreases |done|
  {
    if done != [] {
      var prev := done[..|done| - 1];
      ReportsAt(total, resumeFrom, prev, path);
      assert forall k :: 0 <= k < |done| ==> done[..k] == prev[..k];
      assert done[..|done|] == done;
    }
  }

  /** The reported counts never go down, starting at the resumed offset. */
  lemma ReportsMonotone(total: Option<nat>, resumeFrom: nat, done: seq<Chunk>, path: string)
    ensures var r := Reports(total, resumeFrom, done, path);
            r[0].downloaded == resumeFrom &&
            forall k :: 0 <= k < |r| - 1 ==> r[k].downloaded <= r[k + 1].downloaded
  {
    ReportsAt(total, resumeFrom, done, path);
    assert done[..0] == [];
    forall k | 0 <= k < |done|
      ensures Received(done[..k]) <= Received(done[..k + 1])
    {
      ReceivedStep(done, k);
    }
  }

  /** The error a broken stream ends with: the bytes counted so far, kept for a later resumption. */
  function PartialFailure(downloaded: nat, message: string): IoError
  {
    IoError(Other, "Download failed after " + DecimalString(downloaded) + " bytes: " + message, Some(downloaded))
  }

  /** The first `n` chunks are data, arrive before any cancellation and are written to the file. */
  predicate CleanUpTo(chunks: seq<Chunk>, cancelledAt: nat -> bool, writeError: nat -> Option<IoError>, n: nat)
    requires n <= |chunks|
  {
    forall k :: 0 <= k < n ==> chunks[k].Data? && !cancelledAt(k) && writeError(k).None?
  }

  /**
   * The chunk loop of `process_response`: before each chunk a cancellation
   * ends the download; a data chunk is written to the file (`writeError`
   * is what `write_all` reports for it, if it fails), its bytes are added
   * to the count starting at `resumeFrom` and reported; a broken stream
   * fails with the count so far. After the last chunk the file is flushed
   * and shut down (`finishError`). Returns the final count and the
   * progress updates sent.
   */
  method StreamBody(chunks: seq<Chunk>, cancelledAt: nat -> bool, writeError: nat -> Option<IoError>,
                    finishError: Option<IoError>, resumeFrom: nat, total: Option<nat>, path: string)
    returns (r: Result<nat, IoError>, sent: seq<Progress>)
    ensures r.Ok? <==> CleanUpTo(chunks, cancelledAt, writeError, |chunks|) && finishError.None?
    ensures r.Ok? ==> r.value == resumeFrom + Received(chunks) &&
                      sent == Reports(total, resumeFrom, chunks, path) + [Progress(total, r.value, Completed, Some(path))]
    ensures CleanUpTo(chunks, cancelledAt, writeError, |chunks|) && finishError.Some? ==>
              r == Err(finishError.value) && sent == Reports(total, resumeFrom, chunks, path)
    ensures !CleanUpTo(chunks, cancelledAt, writeError, |chunks|) ==>
              var n := |sent| - 1;
              && 0 <= n < |chunks|
              && CleanUpTo(chunks, cancelledAt, writeError, n)
              && sent == Reports(total, resumeFrom, chunks[..n], path)
              && (cancelledAt(n) ==> r == Err(CANCELLED))
              && (!cancelledAt(n) && chunks[n].StreamError? ==> r == Err(PartialFailure(resumeFrom + Received(chunks[..n]), chunks[n].message)))
              && (!cancelledAt(n) && chunks[n].Data? ==> writeError(n).Some? && r == Err(writeError(n).value))
  {
    var downloaded := resumeFrom;
    sent := [Progress(total, downloaded, Downloading, Some(path))];
    var i := 0;
    while i < |chunks|
      invariant 0 <= i <= |chunks|
      invariant downloaded == resumeFrom + Received(chunks[..i])
      invariant sent == Reports(total, resumeFrom, chunks[..i], path)
      invariant CleanUpTo(chunks, cancelledAt, writeError, i)
    {
      if cancelledAt(i) {
        return Err(CANCELLED), sent;
      }
      ReceivedStep(chunks, i);
      assert chunks[..i + 1][..i] == chunks[..i];
      match chunks[i] {
        case Data(len) =>
          if writeError(i).Some? {
            return Err(writeError(i).value), sent;
          }
          downloaded := downloaded + len;
          sent := sent + [Progress(total, downloaded, Downloading, Some(path))];
        case StreamError(e) =>
          return Err(PartialFailure(downloaded, e)), sent;
      }
      i := i + 1;
    }
    assert chunks[..|chunks|] == chunks;
    if finishError.Some? {
      return Err(finishError.value), sent;
    }
    sent := sent + [Progress(total, downloaded, Completed, Some(path))];
    r := Ok(downloaded);
  }

  /** Where the file goes: into the directory under the chosen file name, or the output path itself. */
  function Destination(outputIsDir: bool, outputPath: string, contentDisposition: Option<string>, urlName: Option<string>, now: nat)
    : (r: Result<string, IoError>)
    ensures !outputIsDir ==> r == Ok(outputPath)
    ensures outputIsDir ==> (r.Err? <==> FileName(contentDisposition, urlName, now).Err?)
    ensures outputIsDir && r.Ok? ==> EndsWith(r.value, FileName(contentDisposition, urlName, now).value)
  {
    if outputIsDir then
      match FileName(contentDisposition, urlName, now)
      case Ok(name) => Ok(JoinPath(outputPath, name))
      case Err(e) => Err(e)
    else Ok(outputPath)
  }

  /** The last progress of a successful download: the total size, every byte counted from the resumed offset, the path. */
  function FinalReport(resp: Response, resumeFrom: nat, chunks: seq<Chunk>, path: string): Progress
  {
    Progress(TotalSize(resp.contentLength, resp.contentRange, resumeFrom), resumeFrom + Received(chunks), Completed, Some(path))
  }

  /**
   * `process_response`: a status other than success fails before anything
   * else; then a cancellation; then the destination and the total size are
   * settled, the file is opened (`openError` is what opening reports, if it
   * fails) and the body is streamed into it.
   */
  method ProcessResponse(resp: Response, outputIsDir: bool, outputPath: string, urlName: Option<string>, now: nat,
                         cancelledAtStart: bool, openError: Option<IoError>,
                         chunks: seq<Chunk>, cancelledAt: nat -> bool, writeError: nat -> Option<IoError>,
                         finishError: Option<IoError>, resumeFrom: nat)
    returns (r: Result<string, IoError>, sent: seq<Progress>)
    ensures !IsSuccess(resp.status) ==>
              r == Err(IoError(Other, "HTTP error: " + DecimalString(resp.status) + " " + DecimalString(resp.status), None)) && sent == []
    ensures IsSuccess(resp.status) && cancelledAtStart ==> r == Err(CANCELLED) && sent == []
    ensures IsSuccess(resp.status) && !cancelledAtStart ==>
              var dest := Destination(outputIsDir, outputPath, resp.contentDisposition, urlName, now);
              && (dest.Err? ==> r == Err(dest.error) && sent == [])
              && (dest.Ok? && openError.Some? ==> r == Err(openError.value) && sent == [])
              && (dest.Ok? && openError.None? && CleanUpTo(chunks, cancelledAt, writeError, |chunks|) && finishError.None? ==>
                    r == Ok(dest.value))
    ensures r.Ok? ==> IsSuccess(resp.status) && !cancelledAtStart && openError.None?
    ensures r.Ok? ==> CleanUpTo(chunks, cancelledAt, writeError, |chunks|) && finishError.None?
    ensures r.Ok? ==> Destination(outputIsDir, outputPath, resp.contentDisposition, urlName, now) == Ok(r.value)
    ensures r.Ok? ==> sent != [] && sent[|sent| - 1] == FinalReport(resp, resumeFrom, chunks, r.value)
    ensures forall i :: 0 <= i < |sent| - 1 ==> sent[i].downloaded <= sent[i + 1].downloaded
    ensures sent != [] ==> sent[0].downloaded == resumeFrom
  {
    if !IsSuccess(resp.status) {
      return Err(IoError(Other, "HTTP error: " + DecimalString(resp.status) + " " + DecimalString(resp.status), None)), [];
    }
    if cancelledAtStart {
      return Err(CANCELLED), [];
    }
    var path;
    match Destination(outputIsDir, outputPath, resp.contentDisposition, urlName, now) {
      case Err(e) => return Err(e), [];
      case Ok(p) => path := p;
    }
    var total := TotalSize(resp.contentLength, resp.contentRange, resumeFrom);
    if openError.Some? {
      return Err(openError.value), [];
    }
    var outcome;
    outcome, sent := StreamBody(chunks, cancelledAt, writeError, finishError, resumeFrom, total, path);
    var streamed := if outcome.Ok? || CleanUpTo(chunks, cancelledAt, writeError, |chunks|) then chunks else chunks[..|sent| - 1];
    ReportsAt(total, resumeFrom, streamed, path);
    ReportsMonotone(total, resumeFrom, streamed, path);
    match outcome {
      case Ok(_) => r := Ok(path);
      case Err(e) => r := Err(e);
    }
  }
}
