/** The two deadline loops of the demo: waiting for the service to report
    itself healthy, and waiting for the enrichment of the ingested cell.

    The wall clock is replaced by an attempt budget: `budget` is the number of
    probes that start before the deadline, and `probes` lists what the service
    answers to successive probes (when it runs out, no further probe starts
    before the deadline either). Each method also returns `polls`, the number
    of probes it made. */
module Polling {

  /** One probe of `GET {baseUrl}/health`. `Unreachable` is a probe that
      threw: the fetch failed or the body was not JSON. Otherwise `ok` is
      `res.ok` and `readyFlag` says that the body is an object whose `ok`
      field is the boolean `true`. */
  datatype HealthProbe = Unreachable | HealthResponse(ok: bool, readyFlag: bool)

  datatype HealthOutcome = Healthy | HealthTimeout(url: string)

  /** A probe that ends the wait for health. */
  predicate IsHealthy(p: HealthProbe) {
    p.HealthResponse? && p.ok && p.readyFlag
  }

  /** `waitForHealth`: returns at the first healthy probe; probes that threw,
      were not ok, or had any other body are passed over; when the budget is
      used up it fails with a timeout naming `{baseUrl}/health`. */
  method WaitForHealth(baseUrl: string, budget: nat, probes: seq<HealthProbe>)
    returns (r: HealthOutcome, polls: nat)
    ensures polls <= budget && polls <= |probes|
    ensures r.Healthy? ==>
      && 0 < polls && IsHealthy(probes[polls - 1])
      && forall j :: 0 <= j < polls - 1 ==> !IsHealthy(probes[j])
    ensures r.HealthTimeout? ==>
      && r.url == baseUrl + "/health"
      && (polls == budget || polls == |probes|)
      && forall j :: 0 <= j < polls ==> !IsHealthy(probes[j])
  {
    polls := 0;
    while polls < budget && polls < |probes|
      invariant polls <= budget && polls <= |probes|
      invariant forall j :: 0 <= j < polls ==> !IsHealthy(probes[j])
    {
      var p := probes[polls];
      polls := polls + 1;
      match p
      case Unreachable =>
      case HealthResponse(ok, readyFlag) =>
        if ok && readyFlag {
          return Healthy, polls;
        }
    }
    r := HealthTimeout(baseUrl + "/health");
  }

  /** One probe of `GET {apiUrl}/enrichment/status?cell_id=...`.
      `RequestFailed` is a request that threw (network failure, the per-call
      timeout, a body that is not JSON): nothing catches it inside the loop.
      Otherwise `ok` is `res.ok`, and `status` and `lastError` are the
      `status` and `last_error` fields as strings (empty when absent). */
  datatype EnrichmentProbe =
    | RequestFailed(reason: string)
    | StatusResponse(ok: bool, status: string, lastError: string)

  datatype EnrichmentOutcome =
    | Done
    | EnrichmentFailed(cellId: string, cause: string)
    | RequestError(reason: string)
    | EnrichmentTimeout(cellId: string)

  /** A probe that ends the wait for enrichment, one way or the other. */
  predicate IsTerminal(p: EnrichmentProbe) {
    p.RequestFailed? || (p.ok && (p.status == "done" || p.status == "failed"))
  }

  /** What a terminal probe makes of the wait: success on `done`; on `failed`,
      an error carrying `last_error`, or "unknown" when that is empty; the
      request's own error when it threw. */
  function TerminalOutcome(cellId: string, p: EnrichmentProbe): (r: EnrichmentOutcome)
    requires IsTerminal(p)
    ensures r.Done? <==> p.StatusResponse? && p.status == "done"
    ensures r.EnrichmentFailed? <==> p.StatusResponse? && p.status == "failed"
    ensures r.EnrichmentFailed? ==> r.cellId == cellId
    ensures r.EnrichmentFailed? ==> r.cause == if p.lastError == [] then "unknown" else p.lastError
    ensures r.RequestError? <==> p.RequestFailed?
    ensures r.RequestError? ==> r.reason == p.reason
    ensures !r.EnrichmentTimeout?
  {
    match p
    case RequestFailed(reason) => RequestError(reason)
    case StatusResponse(_, status, lastError) =>
      if status == "done" then Done
      else EnrichmentFailed(cellId, if lastError == "" then "unknown" else lastError)
  }

  /** `waitForEnrichment`: stops at the first terminal probe with the outcome
      it dictates; non-ok responses and other statuses keep it polling; when
      the budget is used up it fails with a timeout naming the cell. */
  method WaitForEnrichment(cellId: string, budget: nat, probes: seq<EnrichmentProbe>)
    returns (r: EnrichmentOutcome, polls: nat)
    ensures polls <= budget && polls <= |probes|
    ensures !r.EnrichmentTimeout? ==>
      && 0 < polls && IsTerminal(probes[polls - 1])
      && r == TerminalOutcome(cellId, probes[polls - 1])
      && forall j :: 0 <= j < polls - 1 ==> !IsTerminal(probes[j])
    ensures r.EnrichmentTimeout? ==>
      && r.cellId == cellId
      && (polls == budget || polls == |probes|)
      && forall j :: 0 <= j < polls ==> !IsTerminal(probes[j])
  {
    polls := 0;
    while polls < budget && polls < |probes|
      invariant polls <= budget && polls <= |probes|
      invariant forall j :: 0 <= j < polls ==> !IsTerminal(probes[j])
    {
      var p := probes[polls];
      polls := polls + 1;
      match p
      case RequestFailed(reason) =>
        return RequestError(reason), polls;
      case StatusResponse(ok, status, lastError) =>
        if ok {
          if status == "done" {
            return Done, polls;
          }
          if status == "failed" {
            var cause := if lastError == "" then "unknown" else lastError;
            return EnrichmentFailed(cellId, cause), polls;
          }
        }
    }
    r := EnrichmentTimeout(cellId);
  }

  /** The service answers healthy at once: one probe, no second one. */
  method HealthyAtFirstProbe() {
    var probes := [HealthResponse(true, true)];
    var r, polls := WaitForHealth("http://127.0.0.1:8080", 300, probes);
    assert IsHealthy(probes[0]);
    assert r == Healthy && polls == 1;
  }

  /** A zero budget makes no probe and times out. */
  method NoBudgetTimesOut() {
    var r, polls := WaitForHealth("http://h", 0, [HealthResponse(true, true)]);
    assert r == HealthTimeout("http://h/health") && polls == 0;
  }

  /** pending, pending, done: success after the third probe, not before. */
  method DoneAtThirdProbe() {
    var pending := StatusResponse(true, "pending", "");
    var probes := [pending, pending, StatusResponse(true, "done", "")];
    var r, polls := WaitForEnrichment("c1", 200, probes);
    assert !IsTerminal(probes[0]) && !IsTerminal(probes[1]) && IsTerminal(probes[2]);
    assert r == Done && polls == 3;
  }

  /** `failed` with a cause: the wait stops at once and carries the cause. */
  method FailedStopsAtOnce() {
    var probes := [StatusResponse(true, "failed", "parse error"), StatusResponse(true, "done", "")];
    var r, polls := WaitForEnrichment("c1", 200, probes);
    assert IsTerminal(probes[0]);
    assert r == EnrichmentFailed("c1", "parse error") && polls == 1;
  }
}
