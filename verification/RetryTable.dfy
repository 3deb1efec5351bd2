/** The classification of attempts as a table, and the counters of a report as what they count. */
module RetryTable {
  import opened Json
  import opened RetryReport

  // Attempts.

  /** What a non-success status stands for: its error class, reason and detail. */
  datatype Row = Row(class_: string, reason: Reason, detail: Detail)

  const STATUS_ROWS: map<int, Row> := map[
    400 := Row("provider", RequestRejected, HttpBadRequest),
    401 := Row("authentication", Authentication, HttpUnauthorized),
    402 := Row("provider", RateOrSpendingLimit, HttpPaymentRequired),
    403 := Row("authentication", Authorization, HttpForbidden),
    404 := Row("provider", EndpointOrModelNotFound, HttpNotFound),
    408 := Row("timeout", Timeout, HttpRequestTimeout),
    409 := Row("provider", RequestRejected, HttpConflict),
    413 := Row("provider", RequestRejected, HttpContentTooLarge),
    422 := Row("provider", RequestRejected, HttpUnprocessableContent),
    429 := Row("rate_limited", RateOrSpendingLimit, HttpRateLimited),
    504 := Row("timeout", Timeout, HttpGatewayTimeout),
    529 := Row("overloaded", Overloaded, HttpOverloaded)]

  const SERVER_ROW := Row("provider", ProviderUnavailable, HttpServerError)
  const OTHER_ROW := Row("provider", RequestRejected, HttpNonSuccess)

  /** Where a response broke off after its status. */
  const LATE_PHASES: map<string, Detail> := map[
    "response_decode" := ResponseDecode, "response_status" := ResponseStatus, "stream" := Stream]

  function RowOf(status: int): Row {
    if status in STATUS_ROWS then STATUS_ROWS[status] else if 500 <= status <= 599 then SERVER_ROW else OTHER_ROW
  }

  predicate Success(status: int) { 200 <= status <= 299 }

  /** The rows of the table: what an attempt says, and the failure it is, if any. */
  predicate Tabled(a: Attempt, f: Option<Failure>) {
    || (a == Attempt(a.number, "success", a.status, "", "") && Success(a.status) && f == None)
    || (&& a == Attempt(a.number, "error", a.status, RowOf(a.status).class_, "http")
        && 100 <= a.status <= 599 && !Success(a.status)
        && f == Some(Failure(RowOf(a.status).reason, RowOf(a.status).detail, Some(a.status))))
    || (&& a.outcome == "error" && Success(a.status)
        && a.errorClass in {"network", "provider", "unknown"} && a.phase in LATE_PHASES
        && f == Some(Failure(InvalidResponse, LATE_PHASES[a.phase], Some(a.status))))
    || (&& a.outcome == "error" && a.status == 0 && (a.phase in {"context", "transport"} || a.phase in LATE_PHASES)
        && match a.errorClass
           case "cancelled" => f == Some(Failure(Cancelled, DetailCancelled, None))
           case "timeout" => f == Some(Failure(Timeout, DetailTimeout, None))
           case "unknown" => f == Some(Failure(Unknown, DetailUnknown, None))
           case "network" =>
             f == Some(if a.phase in LATE_PHASES then Failure(InvalidResponse, LATE_PHASES[a.phase], None)
                       else Failure(Network, DetailNetwork, None))
           case _ => false)
  }

  lemma RowExactly(status: int)
    ensures RowOf(status) == Row(HttpClass(status), HttpReason(status), HttpDetail(status))
    ensures RowOf(status).class_ in ERROR_CLASSES
  {
  }

  /** An attempt is read exactly as the table says, and refused exactly when no row fits. */
  lemma AttemptExactly(a: Attempt, f: Option<Failure>)
    ensures AttemptFailure(a) == Ok(f) <==> Tabled(a, f)
  {
    hide HttpClass, HttpReason, HttpDetail, RowOf, STATUS_ROWS;
    RowExactly(a.status);
  }

  // Counters.

  /** The requests that a counter counts, by place. */
  function Counted(requests: seq<Request>, p: Request -> bool): set<nat> {
    set i | 0 <= i < |requests| && p(requests[i])
  }

  lemma {:induction false} CountIfCounts(requests: seq<Request>, p: Request -> bool)
    ensures CountIf(requests, p) == |Counted(requests, p)|
  {
    if requests == [] {
      assert Counted(requests, p) == {};
    } else {
      var n := |requests| - 1;
      CountIfCounts(requests[..n], p);
      assert Counted(requests, p) == Counted(requests[..n], p) + (if p(requests[n]) then {n} else {});
    }
  }

  /** The requests with more than one attempt, and those with an outcome. */
  function Repeated(requests: seq<Request>): set<nat> { set i | 0 <= i < |requests| && |requests[i].attempts| > 1 }

  function Ended(requests: seq<Request>, outcome: string): set<nat> {
    set i | 0 <= i < |requests| && requests[i].outcome == outcome
  }

  /** The attempts of all requests, each by request and place. */
  function Attempts(requests: seq<Request>): set<(int, int)> {
    set i, j | 0 <= i < |requests| && 0 <= j < |requests[i].attempts| :: (i, j)
  }

  /** An accepted report says what its requests say: as many requests were repeated, recovered, failed
      and cancelled as it counts, its retries are the attempts beyond the first, and it keeps its
      bounds. */
  lemma ReportExactly(r: Report)
    ensures AcceptedReport(r) <==>
            && 1 <= |r.requests| <= r.total <= 10_000
            && (forall i | 0 <= i < |r.requests| :: Accepted(r.requests[i]))
            && r.retried == |Repeated(r.requests)| && r.recovered == |Ended(r.requests, "recovered")|
            && r.failed == |Ended(r.requests, "failed")| && r.cancelled == |Ended(r.requests, "cancelled")|
            && r.retries == |Attempts(r.requests)| - |r.requests|
  {
    hide Accepted, CountIf, TotalRetries, TotalAttempts, Attempts;
    CountIfCounts(r.requests, Retried);
    CountIfCounts(r.requests, WithOutcome("recovered"));
    CountIfCounts(r.requests, WithOutcome("failed"));
    CountIfCounts(r.requests, WithOutcome("cancelled"));
    SameCounts(r.requests);
    AttemptsCounted(r.requests);
    if AllAccepted(r.requests) {
      RetriesCounted(r.requests);
      RetriesBounded(r.requests);
    }
  }

  lemma SameCounts(requests: seq<Request>)
    ensures Counted(requests, Retried) == Repeated(requests) && |Repeated(requests)| <= |requests|
    ensures forall outcome: string :: Counted(requests, WithOutcome(outcome)) == Ended(requests, outcome)
    ensures forall outcome: string :: |Ended(requests, outcome)| <= |requests|
  {
    AtMostAll(Repeated(requests), |requests|);
    forall outcome: string
      ensures Counted(requests, WithOutcome(outcome)) == Ended(requests, outcome)
      ensures |Ended(requests, outcome)| <= |requests|
    {
      AtMostAll(Ended(requests, outcome), |requests|);
    }
  }

  lemma {:induction false} AtMostAll(s: set<nat>, n: nat)
    requires forall i | i in s :: i < n
    ensures |s| <= n
  {
    if n == 0 {
      assert s == {};
    } else {
      AtMostAll(s - {n - 1}, n - 1);
    }
  }

  lemma {:induction false} RowOfPairs(i: nat, k: nat)
    ensures |set j | 0 <= j < k :: (i, j)| == k
  {
    if k > 0 {
      RowOfPairs(i, k - 1);
      assert (set j | 0 <= j < k :: (i, j)) == (set j | 0 <= j < k - 1 :: (i, j)) + {(i, k - 1)};
    }
  }

  lemma {:induction false} AttemptsCounted(requests: seq<Request>)
    ensures |Attempts(requests)| == TotalAttempts(requests)
  {
    if requests == [] {
      assert Attempts(requests) == {};
    } else {
      var n := |requests| - 1;
      AttemptsCounted(requests[..n]);
      var last := set j | 0 <= j < |requests[n].attempts| :: (n, j);
      RowOfPairs(n, |requests[n].attempts|);
      assert Attempts(requests) == Attempts(requests[..n]) + last && Attempts(requests[..n]) !! last;
    }
  }

  lemma {:induction false} RetriesBounded(requests: seq<Request>)
    requires AllAccepted(requests)
    ensures TotalRetries(requests) <= 99 * |requests|
  {
    if requests != [] {
      var n := |requests| - 1;
      RetriesBounded(requests[..n]);
      assert Accepted(requests[n]);
    }
  }
}
