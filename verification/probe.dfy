/** The existence probe `check_url_exists`: up to `retry_times` HEAD requests,
    where 200 and 404 decide at once, another status simply tries again, and a
    request error sleeps one second before trying again (or answers "absent"
    on the last attempt). The network is an oracle giving the outcome of the
    i-th request. */
module Probe {

  /** What one HEAD request produced: a status code, or a `RequestException`. */
  datatype HeadOutcome = Status(code: int) | RequestError

  /** The probe's answer, how many requests it made and how many one-second
      sleeps it took. */
  datatype ProbeReport = ProbeReport(found: bool, attempts: nat, sleeps: nat)

  /** Attempt `k` (counting from `lo`) answers "exists": it is within the
      budget, it returned 200, and no earlier attempt returned 404. */
  ghost predicate ConfirmedAt(head: nat -> HeadOutcome, retry: int, lo: nat, k: nat) {
    && lo <= k < retry
    && head(k) == Status(200)
    && forall j :: lo <= j < k ==> head(j) != Status(404)
  }

  /** Number of request errors among attempts `lo .. hi - 1`. */
  ghost function ErrorsBetween(head: nat -> HeadOutcome, lo: nat, hi: nat): nat
    decreases hi - lo
  {
    if hi <= lo then 0
    else ErrorsBetween(head, lo, hi - 1) + (if head(hi - 1).RequestError? then 1 else 0)
  }

  /** The retry loop from attempt `i` on. */
  function CheckFrom(retry: int, head: nat -> HeadOutcome, i: nat): (r: ProbeReport)
    requires i == 0 || i <= retry
    ensures i <= r.attempts <= Max0(retry)
    decreases retry - i
  {
    if retry <= i then ProbeReport(false, i, 0)
    else
      match head(i)
      case Status(code) =>
        if code == 200 then ProbeReport(true, i + 1, 0)
        else if code == 404 then ProbeReport(false, i + 1, 0)
        else CheckFrom(retry, head, i + 1)
      case RequestError =>
        if i == retry - 1 then ProbeReport(false, i + 1, 0)
        else
          var r := CheckFrom(retry, head, i + 1);
          r.(sleeps := r.sleeps + 1)
  }

  function Max0(n: int): nat {
    if n < 0 then 0 else n
  }

  /** `check_url_exists(url)` with `retry_times == retry`. */
  function CheckUrlExists(retry: int, head: nat -> HeadOutcome): (r: ProbeReport)
    ensures r.attempts <= Max0(retry)
  {
    CheckFrom(retry, head, 0)
  }

  /** What the retry loop entered at attempt `i` decides, as report `r`:
      "exists" iff some attempt in the budget confirms; it stops early only on
      a 200 or a 404, and every attempt before its last was undecided; it
      sleeps once per request error before its last attempt. */
  ghost predicate ProbeSpec(retry: int, head: nat -> HeadOutcome, i: nat, r: ProbeReport) {
    && (r.found <==> exists k: nat :: ConfirmedAt(head, retry, i, k))
    && (retry > i ==> r.attempts > i)
    && (r.found ==> r.attempts > i && head(r.attempts - 1) == Status(200))
    && (r.attempts < retry ==> r.attempts > 0 && head(r.attempts - 1) in {Status(200), Status(404)})
    && (forall j :: i <= j < r.attempts - 1 ==> head(j) != Status(200) && head(j) != Status(404))
    && (r.attempts > i ==> r.sleeps == ErrorsBetween(head, i, r.attempts - 1))
    && (r.attempts == i ==> r.sleeps == 0)
  }

  lemma {:induction false} CheckFromSpec(retry: int, head: nat -> HeadOutcome, i: nat)
    requires i == 0 || i <= retry
    ensures ProbeSpec(retry, head, i, CheckFrom(retry, head, i))
    decreases retry - i
  {
    if retry > i {
      if head(i) == Status(200) {
        assert ConfirmedAt(head, retry, i, i);
      } else if head(i) == Status(404) || (head(i).RequestError? && i == retry - 1) {
        assert forall k: nat :: !ConfirmedAt(head, retry, i, k);
      } else {
        CheckFromSpec(retry, head, i + 1);
        PassOn(retry, head, i);
      }
    }
  }

  /** An attempt that neither decides nor exhausts the budget hands the
      decision to the next attempt, adding a sleep for a request error. */
  lemma PassOn(retry: int, head: nat -> HeadOutcome, i: nat)
    requires i < retry
    requires head(i) != Status(200) && head(i) != Status(404)
    requires !(head(i).RequestError? && i == retry - 1)
    requires ProbeSpec(retry, head, i + 1, CheckFrom(retry, head, i + 1))
    ensures ProbeSpec(retry, head, i, CheckFrom(retry, head, i))
  {
    var next := CheckFrom(retry, head, i + 1);
    StepConfirmed(head, retry, i, i + 1);
    ErrorsShift(head, i, next.attempts - 1);
  }

  /** `check_url_exists` answers "exists" iff some attempt within the budget
      returns 200 before any 404; it makes at least one request when the
      budget allows, stops early only on a 200 or a 404, stops at the first
      of these, and sleeps once per request error before its last attempt. */
  lemma CheckUrlExistsSpec(retry: int, head: nat -> HeadOutcome)
    ensures var r := CheckUrlExists(retry, head);
            && (r.found <==> exists k: nat :: ConfirmedAt(head, retry, 0, k))
            && (retry >= 1 ==> r.attempts >= 1)
            && (r.attempts < retry ==> head(r.attempts - 1) in {Status(200), Status(404)})
            && (forall j :: 0 <= j < r.attempts - 1 ==> head(j) != Status(200) && head(j) != Status(404))
            && (r.attempts > 0 ==> r.sleeps == ErrorsBetween(head, 0, r.attempts - 1))
            && (r.attempts == 0 ==> r.sleeps == 0)
  {
    CheckFromSpec(retry, head, 0);
  }

  /** An attempt that neither confirms nor refutes passes the decision on. */
  lemma StepConfirmed(head: nat -> HeadOutcome, retry: int, i: nat, next: nat)
    requires next == i + 1
    requires head(i) != Status(200) && head(i) != Status(404)
    ensures (exists k: nat :: ConfirmedAt(head, retry, i, k)) <==> (exists k: nat :: ConfirmedAt(head, retry, next, k))
  {
    if exists k: nat :: ConfirmedAt(head, retry, i, k) {
      var k :| ConfirmedAt(head, retry, i, k);
      assert ConfirmedAt(head, retry, next, k);
    }
    if exists k: nat :: ConfirmedAt(head, retry, next, k) {
      var k :| ConfirmedAt(head, retry, next, k);
      assert ConfirmedAt(head, retry, i, k);
    }
  }

  lemma {:induction false} ErrorsShift(head: nat -> HeadOutcome, i: nat, hi: nat)
    ensures i < hi ==> ErrorsBetween(head, i, hi) == (if head(i).RequestError? then 1 else 0) + ErrorsBetween(head, i + 1, hi)
    decreases hi - i
  {
    if hi > i + 1 {
      ErrorsShift(head, i, hi - 1);
    }
  }

  /** Statuses other than 200 and 404 never cause a sleep: a run in which no
      request fails sleeps zero times. */
  lemma {:induction false} NoErrorsNoSleeps(head: nat -> HeadOutcome, lo: nat, hi: nat)
    requires forall j :: lo <= j < hi ==> !head(j).RequestError?
    ensures ErrorsBetween(head, lo, hi) == 0
    decreases hi - lo
  {
    if hi > lo {
      NoErrorsNoSleeps(head, lo, hi - 1);
    }
  }
}
