/** The retry and naming logic of `download_file`: up to `retry_times` GET
    requests; the first response that `raise_for_status` accepts is written,
    compressed to `<save_path>.gz` and reported as a success; every failed
    attempt but the last sleeps two seconds; the last failure is reported with
    its error. Writing, compressing and deleting the raw file are not modelled. */
module Fetch {
  import opened Probe
  import opened PosixPath

  /** What one GET produced: a response with a status, or a transport-level
      `RequestException` (timeout, connection failure, ...). */
  datatype GetOutcome = Response(status: int) | TransportError(description: string)

  /** The exception that ended an attempt. */
  datatype FetchError = HttpError(status: int) | Transport(description: string)

  /** The message half of `download_file`'s `(success, message)` pair. */
  datatype FetchMessage =
    | Saved(artifact: string)
    | FailedWith(url: string, cause: FetchError)
    | FailedUntried(url: string)

  datatype FetchReport = FetchReport(ok: bool, message: FetchMessage, attempts: nat, sleeps: nat)

  /** `response.raise_for_status()` raises for client (4xx) and server (5xx)
      errors only. */
  predicate RaisesForStatus(status: int) {
    400 <= status < 600
  }

  predicate Succeeds(o: GetOutcome) {
    o.Response? && !RaisesForStatus(o.status)
  }

  function ErrorOf(o: GetOutcome): FetchError
    requires !Succeeds(o)
  {
    match o
    case Response(status) => HttpError(status)
    case TransportError(d) => Transport(d)
  }

  /** The retry loop from attempt `i` on. */
  function DownloadFrom(retry: int, url: string, savePath: string, get: nat -> GetOutcome, i: nat): (r: FetchReport)
    requires i == 0 || i < retry
    ensures i <= r.attempts <= Max0(retry)
    decreases retry - i
  {
    if retry <= i then FetchReport(false, FailedUntried(url), i, 0)
    else if Succeeds(get(i)) then FetchReport(true, Saved(CompressedPath(savePath)), i + 1, 0)
    else if i == retry - 1 then FetchReport(false, FailedWith(url, ErrorOf(get(i))), i + 1, 0)
    else
      var r := DownloadFrom(retry, url, savePath, get, i + 1);
      r.(sleeps := r.sleeps + 1)
  }

  /** `download_file(url, save_path)` with `retry_times == retry`. */
  function DownloadFile(retry: int, url: string, savePath: string, get: nat -> GetOutcome): (r: FetchReport)
    ensures r.attempts <= Max0(retry)
  {
    DownloadFrom(retry, url, savePath, get, 0)
  }

  /** What the retry loop entered at attempt `i` reports, as `r`: success
      iff some attempt left in the budget gets an accepted response, and then
      exactly at the first such attempt, naming the compressed artifact;
      otherwise the whole budget is spent and the last error is reported. */
  ghost predicate FetchSpec(retry: int, url: string, savePath: string, get: nat -> GetOutcome, i: nat, r: FetchReport) {
    && (r.ok <==> exists k: nat :: i <= k < retry && Succeeds(get(k)))
    && (r.ok ==> && r.attempts > i
                 && Succeeds(get(r.attempts - 1))
                 && (forall j :: i <= j < r.attempts - 1 ==> !Succeeds(get(j)))
                 && r.message == Saved(CompressedPath(savePath)))
    && (!r.ok && i < retry ==>
          && r.attempts == retry
          && r.message == FailedWith(url, ErrorOf(get(retry - 1))))
    && (retry <= i ==> r.attempts == 0 && r.message == FailedUntried(url))
    && (r.attempts > i ==> r.sleeps == r.attempts - 1 - i)
  }

  lemma {:induction false} DownloadFromSpec(retry: int, url: string, savePath: string, get: nat -> GetOutcome, i: nat)
    requires i == 0 || i < retry
    ensures FetchSpec(retry, url, savePath, get, i, DownloadFrom(retry, url, savePath, get, i))
    decreases retry - i
  {
    if retry > i && !Succeeds(get(i)) && i != retry - 1 {
      DownloadFromSpec(retry, url, savePath, get, i + 1);
      FetchPassOn(retry, url, savePath, get, i);
    } else if retry > i && Succeeds(get(i)) {
      assert i <= i < retry && Succeeds(get(i));
    }
  }

  /** A failed attempt before the last hands the outcome to the next one,
      adding a sleep. */
  lemma FetchPassOn(retry: int, url: string, savePath: string, get: nat -> GetOutcome, i: nat)
    requires i < retry - 1 && !Succeeds(get(i))
    requires FetchSpec(retry, url, savePath, get, i + 1, DownloadFrom(retry, url, savePath, get, i + 1))
    ensures FetchSpec(retry, url, savePath, get, i, DownloadFrom(retry, url, savePath, get, i))
  {
    var r := DownloadFrom(retry, url, savePath, get, i + 1);
    assert DownloadFrom(retry, url, savePath, get, i) == r.(sleeps := r.sleeps + 1);
    if r.ok {
      var k :| i + 1 <= k < retry && Succeeds(get(k));
      assert i <= k < retry && Succeeds(get(k));
    }
    if exists k: nat :: i <= k < retry && Succeeds(get(k)) {
      var k: nat :| i <= k < retry && Succeeds(get(k));
      assert k != i;
    }
  }

  /** `download_file` succeeds iff some attempt within `retry_times` gets an
      accepted response; it stops at the first one and names the compressed
      artifact; otherwise it spends the whole budget and reports the last
      error, or reports the URL alone when the budget is empty. It sleeps
      before every attempt but the first. */
  lemma DownloadFileSpec(retry: int, url: string, savePath: string, get: nat -> GetOutcome)
    ensures var r := DownloadFile(retry, url, savePath, get);
            && (r.ok <==> exists k: nat :: k < retry && Succeeds(get(k)))
            && (r.ok ==> && r.attempts > 0
                         && Succeeds(get(r.attempts - 1))
                         && (forall j :: 0 <= j < r.attempts - 1 ==> !Succeeds(get(j)))
                         && r.message == Saved(CompressedPath(savePath)))
            && (!r.ok && retry >= 1 ==>
                  && r.attempts == retry
                  && r.message == FailedWith(url, ErrorOf(get(retry - 1))))
            && (retry <= 0 ==> r.attempts == 0 && r.message == FailedUntried(url))
            && (r.attempts > 0 ==> r.sleeps == r.attempts - 1)
  {
    DownloadFromSpec(retry, url, savePath, get, 0);
  }
}
