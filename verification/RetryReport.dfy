/** The provider's retry report: per-attempt projection and the counters it must agree with. */
module RetryReport {
  import opened Json
  import opened Collections

  const MAX_RETRY_REQUESTS := 10_000
  const MAX_ATTEMPTS_PER_REQUEST := 100

  const ERROR_CLASSES: set<string> :=
    {"authentication", "cancelled", "network", "overloaded", "provider", "rate_limited", "timeout", "unknown"}
  const FAILURE_PHASES: set<string> :=
    {"context", "http", "response_decode", "response_status", "stream", "transport"}

  datatype Reason =
    | Authentication | Authorization | RateOrSpendingLimit | Overloaded | Timeout | Network
    | EndpointOrModelNotFound | RequestRejected | ProviderUnavailable | InvalidResponse | Cancelled | Mixed | Unknown

  datatype Detail =
    | HttpBadRequest | HttpUnauthorized | HttpPaymentRequired | HttpForbidden | HttpNotFound | HttpRequestTimeout
    | HttpConflict | HttpContentTooLarge | HttpUnprocessableContent | HttpRateLimited | HttpGatewayTimeout
    | HttpOverloaded | HttpServerError | HttpNonSuccess | ResponseDecode | ResponseStatus | Stream
    | DetailCancelled | DetailTimeout | DetailNetwork | DetailUnknown

  datatype Attempt = Attempt(number: int, outcome: string, status: int, errorClass: string, phase: string)

  datatype Request = Request(outcome: string, attempts: seq<Attempt>)

  datatype Report = Report(
    total: int, retried: int, retries: int, recovered: int, failed: int, cancelled: int, requests: seq<Request>)

  datatype Failure = Failure(reason: Reason, detail: Detail, status: Option<int>)

  datatype Projection = Projection(
    reason: Reason, details: multiset<Detail>, status: Option<int>,
    failed: int, cancelled: int, retried: int, retries: int, recovered: int)

  function HttpReason(status: int): Reason {
    if status == 401 then Authentication
    else if status == 403 then Authorization
    else if status == 402 || status == 429 then RateOrSpendingLimit
    else if status == 404 then EndpointOrModelNotFound
    else if status == 408 || status == 504 then Timeout
    else if status == 529 then Overloaded
    else if 500 <= status <= 599 then ProviderUnavailable
    else RequestRejected
  }

  function HttpDetail(status: int): Detail {
    if status == 400 then HttpBadRequest
    else if status == 401 then HttpUnauthorized
    else if status == 402 then HttpPaymentRequired
    else if status == 403 then HttpForbidden
    else if status == 404 then HttpNotFound
    else if status == 408 then HttpRequestTimeout
    else if status == 409 then HttpConflict
    else if status == 413 then HttpContentTooLarge
    else if status == 422 then HttpUnprocessableContent
    else if status == 429 then HttpRateLimited
    else if status == 504 then HttpGatewayTimeout
    else if status == 529 then HttpOverloaded
    else if 500 <= status <= 599 then HttpServerError
    else HttpNonSuccess
  }

  /** The error class that goes with an observed non-success status. */
  function HttpClass(status: int): string {
    if status == 429 then "rate_limited"
    else if status == 529 then "overloaded"
    else if status == 401 || status == 403 then "authentication"
    else if status == 408 || status == 504 then "timeout"
    else "provider"
  }

  predicate LatePhase(phase: string) { phase == "response_decode" || phase == "response_status" || phase == "stream" }

  function PhaseDetail(phase: string): Detail {
    if phase == "response_decode" then ResponseDecode else if phase == "response_status" then ResponseStatus else Stream
  }

  /** One attempt: refused, a success, or one closed failure. */
  function AttemptFailure(a: Attempt): Result<Option<Failure>> {
    if a.outcome != "success" && a.outcome != "error" then Err
    else if a.status != 0 && !(100 <= a.status <= 599) then Err
    else if a.outcome == "success" then
      if a.errorClass != "" || a.phase != "" || !(200 <= a.status <= 299) then Err else Ok(None)
    else if a.errorClass !in ERROR_CLASSES || a.phase !in FAILURE_PHASES then Err
    else if a.status != 0 && !(200 <= a.status <= 299) then
      if a.phase != "http" || a.errorClass != HttpClass(a.status) then Err
      else Ok(Some(Failure(HttpReason(a.status), HttpDetail(a.status), Some(a.status))))
    else if a.status != 0 then
      if !LatePhase(a.phase) || (a.errorClass != "network" && a.errorClass != "provider" && a.errorClass != "unknown")
      then Err else Ok(Some(Failure(InvalidResponse, PhaseDetail(a.phase), Some(a.status))))
    else if a.phase == "http" || a.errorClass == "authentication" || a.errorClass == "overloaded"
            || a.errorClass == "provider" || a.errorClass == "rate_limited" then Err
    else if a.errorClass == "cancelled" then Ok(Some(Failure(Cancelled, DetailCancelled, None)))
    else if a.errorClass == "timeout" then Ok(Some(Failure(Timeout, DetailTimeout, None)))
    else if a.errorClass == "network" then
      if LatePhase(a.phase) then Ok(Some(Failure(InvalidResponse, PhaseDetail(a.phase), None)))
      else Ok(Some(Failure(Network, DetailNetwork, None)))
    else Ok(Some(Failure(Unknown, DetailUnknown, None)))
  }

  // One request.

  predicate Succeeds(a: Attempt) { AttemptFailure(a) == Ok(None) }

  predicate Fails(a: Attempt) { AttemptFailure(a).Ok? && AttemptFailure(a).value.Some? }

  predicate Ordered(attempts: seq<Attempt>) {
    && 0 < |attempts| <= MAX_ATTEMPTS_PER_REQUEST
    && forall i | 0 <= i < |attempts| :: attempts[i].number == i + 1 && AttemptFailure(attempts[i]).Ok?
  }

  /** What each outcome says about the attempts. */
  predicate Accepted(r: Request) {
    && Ordered(r.attempts)
    && var last := r.attempts[|r.attempts| - 1];
       match r.outcome
       case "succeeded" => |r.attempts| >= 2 && forall i | 0 <= i < |r.attempts| :: Succeeds(r.attempts[i])
       case "recovered" => Succeeds(last) && exists i | 0 <= i < |r.attempts| - 1 :: Fails(r.attempts[i])
       case "cancelled" => true
       case "failed" => Fails(last)
       case _ => false
  }

  function RequestFailure(r: Request): Option<Failure>
    requires Accepted(r)
  {
    match r.outcome
    case "cancelled" => Some(Failure(Cancelled, DetailCancelled, None))
    case "failed" => AttemptFailure(r.attempts[|r.attempts| - 1]).value
    case _ => None
  }

  method ReadRequest(r: Request) returns (result: Result<Option<Failure>>)
    ensures result.Ok? <==> Accepted(r)
    ensures result.Ok? ==> result.value == RequestFailure(r)
  {
    hide AttemptFailure;
    match r.outcome {
      case "succeeded" =>
      case "recovered" =>
      case "cancelled" =>
      case "failed" =>
      case _ => return Err;
    }
    if |r.attempts| == 0 || |r.attempts| > MAX_ATTEMPTS_PER_REQUEST { return Err; }
    var failures: seq<Option<Failure>> := [];
    for i := 0 to |r.attempts|
      invariant |failures| == i
      invariant forall k | 0 <= k < i ::
        r.attempts[k].number == k + 1 && AttemptFailure(r.attempts[k]) == Ok(failures[k])
    {
      var failure := AttemptFailure(r.attempts[i]);
      if r.attempts[i].number != i + 1 || failure.Err? { return Err; }
      failures := failures + [failure.value];
    }
    ghost var n := |r.attempts|;
    assert forall k | 0 <= k < n ::
        (Succeeds(r.attempts[k]) <==> failures[k].None?) && (Fails(r.attempts[k]) <==> failures[k].Some?);
    match r.outcome {
      case "succeeded" =>
        if |failures| < 2 || (exists k :: 0 <= k < |failures| && failures[k].Some?) { return Err; }
        return Ok(None);
      case "recovered" =>
        if failures[|failures| - 1].Some? || !(exists k :: 0 <= k < |failures| - 1 && failures[k].Some?) { return Err; }
        return Ok(None);
      case "cancelled" => return Ok(Some(Failure(Cancelled, DetailCancelled, None)));
      case _ =>
        if failures[|failures| - 1].None? { return Err; }
        return Ok(failures[|failures| - 1]);
    }
  }

  // The whole report.

  /** How many requests a counter counts. */
  function CountIf(requests: seq<Request>, p: Request -> bool): nat {
    if requests == [] then 0
    else CountIf(requests[..|requests| - 1], p) + (if p(requests[|requests| - 1]) then 1 else 0)
  }

  function WithOutcome(outcome: string): Request -> bool { (r: Request) => r.outcome == outcome }

  predicate Retried(r: Request) { |r.attempts| > 1 }

  function Retries(r: Request): nat { if |r.attempts| > 0 then |r.attempts| - 1 else 0 }

  function TotalRetries(requests: seq<Request>): nat {
    if requests == [] then 0 else TotalRetries(requests[..|requests| - 1]) + Retries(requests[|requests| - 1])
  }

  function TotalAttempts(requests: seq<Request>): nat {
    if requests == [] then 0 else TotalAttempts(requests[..|requests| - 1]) + |requests[|requests| - 1].attempts|
  }

  predicate CountersAgree(r: Report) {
    && 0 <= r.total <= MAX_RETRY_REQUESTS && |r.requests| <= r.total
    && r.retried == CountIf(r.requests, Retried) && r.retries == TotalRetries(r.requests)
    && r.recovered == CountIf(r.requests, WithOutcome("recovered"))
    && r.failed == CountIf(r.requests, WithOutcome("failed"))
    && r.cancelled == CountIf(r.requests, WithOutcome("cancelled"))
    && r.retried <= MAX_RETRY_REQUESTS && r.recovered <= MAX_RETRY_REQUESTS && r.failed <= MAX_RETRY_REQUESTS
    && r.cancelled <= MAX_RETRY_REQUESTS && r.retries <= MAX_RETRY_REQUESTS * (MAX_ATTEMPTS_PER_REQUEST - 1)
  }

  predicate AcceptedReport(r: Report) {
    && 0 < |r.requests| <= MAX_RETRY_REQUESTS && CountersAgree(r)
    && forall i | 0 <= i < |r.requests| :: Accepted(r.requests[i])
  }

  /** The terminal failures, in request order. */
  function Failures(requests: seq<Request>): seq<Failure>
    requires forall i | 0 <= i < |requests| :: Accepted(requests[i])
  {
    if requests == [] then []
    else
      var last := RequestFailure(requests[|requests| - 1]);
      Failures(requests[..|requests| - 1]) + (if last.Some? then [last.value] else [])
  }

  function Reasons(failures: seq<Failure>): set<Reason> { set f | f in failures :: f.reason }

  function Statuses(failures: seq<Failure>): set<Option<int>> { set f | f in failures :: f.status }

  function Details(failures: seq<Failure>): multiset<Detail> {
    if failures == [] then multiset{}
    else Details(failures[..|failures| - 1]) + multiset{failures[|failures| - 1].detail}
  }

  lemma Nothing()
    ensures Failures([]) == [] && Details([]) == multiset{}
  {
  }

  lemma FailuresStep(requests: seq<Request>, i: nat)
    requires i < |requests| && forall k | 0 <= k <= i :: Accepted(requests[k])
    ensures var last := RequestFailure(requests[i]);
            Failures(requests[..i + 1]) == Failures(requests[..i]) + (if last.Some? then [last.value] else [])
  {
    hide Accepted, RequestFailure;
    assert requests[..i + 1][..i] == requests[..i];
  }

  lemma DetailsStep(failures: seq<Failure>, i: nat)
    requires i < |failures|
    ensures Details(failures[..i + 1]) == Details(failures[..i]) + multiset{failures[i].detail}
  {
    assert failures[..i + 1][..i] == failures[..i];
  }

  method ParseProjection(r: Report) returns (result: Result<Option<Projection>>)
    ensures result.Ok? <==> AcceptedReport(r)
    ensures result.Ok? ==>
      var failures := Failures(r.requests);
      if failures == [] then result.value == None
      else
        && result.value.Some?
        && var p := result.value.value;
           && (p.failed, p.cancelled, p.retried, p.retries, p.recovered)
              == (r.failed, r.cancelled, r.retried, r.retries, r.recovered)
           && p.details == Details(failures)
           && (if |Reasons(failures)| == 1 then p.reason in Reasons(failures) else p.reason == Mixed)
           && (if |Statuses(failures)| == 1 then p.status in Statuses(failures) else p.status == None)
  {
    hide Accepted, RequestFailure, CountIf, TotalRetries, CountersAgree, Failures, Details;
    Nothing();
    if |r.requests| == 0 || |r.requests| > MAX_RETRY_REQUESTS { return Err; }
    if !CountersAgree(r) { return Err; }
    var failures: seq<Failure> := [];
    for i := 0 to |r.requests|
      invariant forall k | 0 <= k < i :: Accepted(r.requests[k])
      invariant failures == Failures(r.requests[..i])
    {
      var failure := ReadRequest(r.requests[i]);
      if failure.Err? { return Err; }
      FailuresStep(r.requests, i);
      if failure.value.Some? { failures := failures + [failure.value.value]; }
    }
    assert r.requests[..|r.requests|] == r.requests;
    if failures == [] { return Ok(None); }
    var reasons, statuses, details: multiset<Detail> := Reasons(failures), Statuses(failures), multiset{};
    for i := 0 to |failures|
      invariant details == Details(failures[..i])
    {
      DetailsStep(failures, i);
      details := details + multiset{failures[i].detail};
    }
    assert failures[..|failures|] == failures;
    var reason, status := Mixed, None;
    if |reasons| == 1 { reason :| reason in reasons; }
    if |statuses| == 1 { status :| status in statuses; }
    return Ok(Some(Projection(reason, details, status, r.failed, r.cancelled, r.retried, r.retries, r.recovered)));
  }

  // Conservation.

  predicate AllAccepted(requests: seq<Request>) {
    forall i | 0 <= i < |requests| :: Accepted(requests[i])
  }

  lemma {:induction false} FailuresCounted(requests: seq<Request>)
    requires AllAccepted(requests)
    ensures |Failures(requests)| == CountIf(requests, WithOutcome("failed"))
            + CountIf(requests, WithOutcome("cancelled"))
  {
    hide Ordered, AttemptFailure;
    if requests != [] {
      var n := |requests| - 1;
      FailuresCounted(requests[..n]);
      assert Accepted(requests[n]);
    }
  }

  lemma {:induction false} DetailsCounted(failures: seq<Failure>)
    ensures |Details(failures)| == |failures|
  {
    if failures != [] {
      DetailsCounted(failures[..|failures| - 1]);
    }
  }

  lemma {:induction false} RetriesCounted(requests: seq<Request>)
    requires AllAccepted(requests)
    ensures TotalRetries(requests) + |requests| == TotalAttempts(requests)
  {
    hide AttemptFailure;
    if requests != [] {
      var n := |requests| - 1;
      RetriesCounted(requests[..n]);
      assert Accepted(requests[n]);
    }
  }

  lemma {:induction false} EveryRequestShows(requests: seq<Request>)
    requires AllAccepted(requests)
    ensures |requests| <= CountIf(requests, Retried) + CountIf(requests, WithOutcome("failed"))
                          + CountIf(requests, WithOutcome("cancelled"))
    ensures CountIf(requests, WithOutcome("recovered")) <= CountIf(requests, Retried)
  {
    hide AttemptFailure;
    if requests != [] {
      var n := |requests| - 1;
      EveryRequestShows(requests[..n]);
      assert Accepted(requests[n]);
    }
  }

  /** An accepted report conserves its counts. */
  lemma ReportIsConserved(r: Report)
    requires AcceptedReport(r)
    ensures |Details(Failures(r.requests))| == r.failed + r.cancelled
    ensures Failures(r.requests) == [] <==> r.failed + r.cancelled == 0
    ensures r.retries + |r.requests| == TotalAttempts(r.requests)
    ensures |r.requests| <= r.retried + r.failed + r.cancelled && r.recovered <= r.retried
  {
    hide Accepted, Failures, Details, CountIf, TotalRetries;
    FailuresCounted(r.requests);
    DetailsCounted(Failures(r.requests));
    RetriesCounted(r.requests);
    EveryRequestShows(r.requests);
  }

  lemma {:induction false} NoFailureIsMixed(requests: seq<Request>)
    requires AllAccepted(requests)
    ensures forall f | f in Failures(requests) :: f.reason != Mixed
  {
    hide Ordered;
    if requests != [] {
      NoFailureIsMixed(requests[..|requests| - 1]);
      assert Accepted(requests[|requests| - 1]);
    }
  }

  /** `mixed` is said exactly when two requests ended for different reasons. */
  lemma MixedExactly(r: Report, reason: Reason)
    requires AcceptedReport(r) && Failures(r.requests) != []
    requires var reasons := Reasons(Failures(r.requests));
             if |reasons| == 1 then reason in reasons else reason == Mixed
    ensures reason == Mixed <==>
            exists f, g | f in Failures(r.requests) && g in Failures(r.requests) :: f.reason != g.reason
  {
    hide Accepted, Failures;
    NoFailureIsMixed(r.requests);
    var failures := Failures(r.requests);
    var reasons := Reasons(failures);
    var first := failures[0];
    assert first.reason in reasons;
    if forall f | f in failures :: f.reason == first.reason {
      assert reasons == {first.reason};
    } else {
      var f :| f in failures && f.reason != first.reason;
      assert f.reason in reasons && {first.reason, f.reason} <= reasons;
      assert |{first.reason, f.reason}| == 2;
      SubsetSize({first.reason, f.reason}, reasons);
    }
  }

  /** A reason that comes with an HTTP status is the reason of that status, and no two attempts
      of one status disagree: the status fixes the whole failure, except for which late phase a
      2xx answer broke in. */
  lemma StatusFixesFailure(a: Attempt, b: Attempt)
    requires Fails(a) && Fails(b) && a.status == b.status != 0
    ensures var f, g := AttemptFailure(a).value.value, AttemptFailure(b).value.value;
            && f.status == Some(a.status) && f.reason == g.reason
            && (f.reason == InvalidResponse <==> 200 <= a.status <= 299)
            && (f.reason != InvalidResponse ==> f == g && a.errorClass == b.errorClass && a.phase == b.phase == "http")
  {
  }
}
