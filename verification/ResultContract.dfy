/** The versioned review-result contract: which coverage manifests are accepted, and the
    normalised outcome they stand for. */
module ResultContract {
  import opened Json
  import opened PyText
  import opened Collections

  const MANIFEST_SCHEMA := "ocr.run-manifest/v1"
  const MAX_COVERAGE_RECORDS := 10_000
  const MAX_ITEM_ID_CHARS := 256
  const MAX_WAIVER_REASON_CHARS := 2_000
  const FAILURE_CLASSES := {
    "provider", "timeout", "cancelled", "configuration", "input", "budget", "panic", "unknown"
  }
  const RUN_FAILURE_CLASSES := {
    "input", "configuration", "timeout", "cancelled", "budget", "internal", "unknown"
  }

  datatype Kind = Clean | Warning | Partial | Failed | Skipped

  function ManifestKind(state: string): Option<Kind> {
    match state
    case "complete" => Some(Clean)
    case "partial" => Some(Partial)
    case "failed" => Some(Failed)
    case "skipped" => Some(Skipped)
    case _ => None
  }

  function LegacyKind(status: string): Option<Kind> {
    match status
    case "success" => Some(Clean)
    case "completed_with_warnings" => Some(Warning)
    case "completed_with_errors" => Some(Partial)
    case "budget_exceeded" => Some(Partial)
    case "skipped" => Some(Skipped)
    case _ => None
  }

  datatype CoverageFailure = CoverageFailure(itemId: string, path: Json, classification: string, reason: Json)

  datatype Outcome = Outcome(
    status: string, kind: Kind, budgetExceeded: bool, manifestPresent: bool,
    selected: nat, completed: nat, reused: nat, failed: nat, waived: nat,
    failedItems: seq<CoverageFailure>)

  // Coverage arrays.

  predicate ValidId(s: string) {
    s != "" && |s| <= MAX_ITEM_ID_CHARS && forall i | 0 <= i < |s| :: !IsSpace(s[i])
  }

  /** The record is an object with a valid item identity. */
  predicate Identified(record: Json) {
    record.Obj? && match Get(record, "item_id")
      case Some(Str(s)) => ValidId(s)
      case _ => false
  }

  function IdOf(record: Json): string
    requires Identified(record)
  {
    Get(record, "item_id").value.text
  }

  /** A bounded list of records with valid and pairwise distinct identities. */
  predicate ValidCoverage(v: Option<Json>) {
    && v.Some? && v.value.Arr?
    && |v.value.items| <= MAX_COVERAGE_RECORDS
    && (forall i | 0 <= i < |v.value.items| :: Identified(v.value.items[i]))
    && Distinct(IdsOf(v.value.items))
  }

  function IdsOf(records: seq<Json>): (ids: seq<string>)
    requires forall i | 0 <= i < |records| :: Identified(records[i])
    ensures |ids| == |records|
  {
    seq(|records|, i requires 0 <= i < |records| => IdOf(records[i]))
  }

  function IdSet(v: Option<Json>): set<string>
    requires ValidCoverage(v)
  {
    set i | 0 <= i < |v.value.items| :: IdOf(v.value.items[i])
  }

  method CoverageIds(value: Option<Json>) returns (r: Result<(set<string>, seq<Json>)>)
    ensures r.Ok? <==> ValidCoverage(value)
    ensures r.Ok? ==> r.value == (IdSet(value), value.value.items)
  {
    hide ValidId;
    if value.None? || !value.value.Arr? { return Err; }
    var items := value.value.items;
    if |items| > MAX_COVERAGE_RECORDS { return Err; }
    var identities: set<string>, records := {}, [];
    for i := 0 to |items|
      invariant records == items[..i]
      invariant forall k | 0 <= k < i :: Identified(items[k])
      invariant Distinct(IdsOf(items[..i]))
      invariant identities == set k | 0 <= k < i :: IdOf(items[k])
    {
      var record := items[i];
      if !record.Obj? { return Err; }
      var id := Get(record, "item_id");
      if id.None? || !id.value.Str? || !ValidId(id.value.text) { return Err; }
      if id.value.text in identities {
        var k :| 0 <= k < i && IdOf(items[k]) == IdOf(items[i]);
        if forall j | 0 <= j < |items| :: Identified(items[j]) {
          assert IdsOf(items)[k] == IdsOf(items)[i];
        }
        return Err;
      }
      assert IdsOf(items[..i + 1]) == IdsOf(items[..i]) + [IdOf(record)];
      identities := identities + {id.value.text};
      records := records + [record];
    }
    assert items[..|items|] == items;
    return Ok((identities, records));
  }

  // Failure and waiver records.

  predicate FailureClassified(record: Json)
    requires record.Obj?
  {
    match Get(record, "classification")
    case Some(Str(s)) => s in FAILURE_CLASSES
    case _ => false
  }

  function ClassOf(record: Json): string
    requires record.Obj? && FailureClassified(record)
  {
    Get(record, "classification").value.text
  }

  predicate WaiverExplained(record: Json)
    requires record.Obj?
  {
    match Get(record, "reason")
    case Some(Str(s)) => !Blank(s) && |s| <= MAX_WAIVER_REASON_CHARS
    case _ => false
  }

  method ValidateFailureRecords(records: seq<Json>) returns (r: Result<bool>)
    requires forall i | 0 <= i < |records| :: records[i].Obj?
    ensures r.Ok? <==> forall i | 0 <= i < |records| :: FailureClassified(records[i])
    ensures r.Ok? ==> (r.value <==> exists i :: 0 <= i < |records| && ClassOf(records[i]) == "budget")
  {
    var budget := false;
    for i := 0 to |records|
      invariant forall k | 0 <= k < i :: FailureClassified(records[k])
      invariant budget <==> exists k :: 0 <= k < i && ClassOf(records[k]) == "budget"
    {
      if !FailureClassified(records[i]) { return Err; }
      budget := budget || ClassOf(records[i]) == "budget";
    }
    return Ok(budget);
  }

  // The manifest as a whole.

  const NO_RUN_FAILURE := Null

  /** The five coverage arrays, in the order the contract reads them. */
  datatype Coverage = Coverage(selected: Option<Json>, completed: Option<Json>, reused: Option<Json>,
                               failed: Option<Json>, waived: Option<Json>)

  function CoverageOf(m: Json): Option<Coverage>
    requires m.Obj?
  {
    match Get(m, "coverage")
    case Some(c) =>
      if c.Obj? then Some(Coverage(Get(c, "selected"), Get(c, "completed"), Get(c, "reused"),
                                   Get(c, "failed"), Get(c, "waived")))
      else None
    case None => None
  }

  predicate ValidArrays(c: Coverage) {
    && ValidCoverage(c.selected) && ValidCoverage(c.completed) && ValidCoverage(c.reused)
    && ValidCoverage(c.failed) && ValidCoverage(c.waived)
  }

  /** Every selected item reaches exactly one terminal state, and nothing else does. */
  predicate Partitioned(c: Coverage)
    requires ValidArrays(c)
  {
    var (completed, reused, failed, waived) :=
      (IdSet(c.completed), IdSet(c.reused), IdSet(c.failed), IdSet(c.waived));
    && completed !! reused !! failed !! waived
    && completed + reused + failed + waived == IdSet(c.selected)
  }

  predicate ExplainedRecords(c: Coverage)
    requires ValidArrays(c)
  {
    && (forall i | 0 <= i < |c.failed.value.items| :: FailureClassified(c.failed.value.items[i]))
    && (forall i | 0 <= i < |c.waived.value.items| :: WaiverExplained(c.waived.value.items[i]))
  }

  predicate ValidRunFailure(f: Json) {
    f == NO_RUN_FAILURE ||
    (f.Obj? && match Get(f, "classification")
     case Some(Str(s)) => s in RUN_FAILURE_CLASSES
     case _ => false)
  }

  function DerivedState(c: Coverage, runFailure: Json): string
    requires ValidArrays(c)
  {
    if runFailure != NO_RUN_FAILURE then "failed"
    else if IdSet(c.selected) == {} then "skipped"
    else if IdSet(c.failed) == {} then "complete"
    else if IdSet(c.failed) == IdSet(c.selected) then "failed"
    else "partial"
  }

  /** Some failed item, or the run itself, failed on its budget. */
  predicate BudgetFailure(c: Coverage, runFailure: Json)
    requires ValidArrays(c) && ExplainedRecords(c) && ValidRunFailure(runFailure)
  {
    || (exists i :: 0 <= i < |c.failed.value.items| && ClassOf(c.failed.value.items[i]) == "budget")
    || (runFailure.Obj? && Get(runFailure, "classification").value.text == "budget")
  }

  predicate ManifestAccepted(status: string, m: Json, budgetExceeded: bool) {
    && m.Obj?
    && Get(m, "schema_version") == Some(Str(MANIFEST_SCHEMA))
    && Get(m, "operation") == Some(Str("review"))
    && ManifestKind(status).Some? && Get(m, "terminal_state") == Some(Str(status))
    && var c := CoverageOf(m);
       var f := GetOrNull(m, "run_failure");
       && c.Some? && ValidArrays(c.value) && Partitioned(c.value) && ExplainedRecords(c.value)
       && ValidRunFailure(f)
       && status == DerivedState(c.value, f)
       && (budgetExceeded ==> BudgetFailure(c.value, f) && status != "complete" && status != "skipped")
  }

  function FailureOf(record: Json): CoverageFailure
    requires Identified(record) && FailureClassified(record)
  {
    CoverageFailure(IdOf(record), GetOrNull(record, "path"), ClassOf(record), GetOrNull(record, "reason"))
  }

  function FailuresOf(records: seq<Json>): (r: seq<CoverageFailure>)
    requires forall i | 0 <= i < |records| :: Identified(records[i]) && FailureClassified(records[i])
    ensures |r| == |records|
  {
    seq(|records|, i requires 0 <= i < |records| => FailureOf(records[i]))
  }

  function ManifestOutcome(status: string, m: Json, budgetExceeded: bool): Outcome
    requires ManifestAccepted(status, m, budgetExceeded)
  {
    var c := CoverageOf(m).value;
    Outcome(status, ManifestKind(status).value, budgetExceeded, true,
            |IdSet(c.selected)|, |IdSet(c.completed)|, |IdSet(c.reused)|, |IdSet(c.failed)|, |IdSet(c.waived)|,
            FailuresOf(c.failed.value.items))
  }

  type Terminal = (set<string>, seq<Json>)

  /** The identities and records of the four terminal arrays, in the order the contract reads them. */
  method ReadTerminals(c: Coverage) returns (r: Result<seq<Terminal>>)
    ensures r.Ok? <==> (&& ValidCoverage(c.completed) && ValidCoverage(c.reused) && ValidCoverage(c.failed)
                        && ValidCoverage(c.waived))
    ensures r.Ok? ==>
      r.value == [(IdSet(c.completed), c.completed.value.items), (IdSet(c.reused), c.reused.value.items),
                  (IdSet(c.failed), c.failed.value.items), (IdSet(c.waived), c.waived.value.items)]
  {
    var completed := CoverageIds(c.completed);
    if completed.Err? { return Err; }
    var reused := CoverageIds(c.reused);
    if reused.Err? { return Err; }
    var failed := CoverageIds(c.failed);
    if failed.Err? { return Err; }
    var waived := CoverageIds(c.waived);
    if waived.Err? { return Err; }
    return Ok([completed.value, reused.value, failed.value, waived.value]);
  }

  /** The union of the terminal identities, unless two terminal states share one. */
  method JoinTerminals(t: seq<Terminal>) returns (r: Result<set<string>>)
    requires |t| == 4
    ensures r.Ok? <==> t[0].0 !! t[1].0 !! t[2].0 !! t[3].0
    ensures r.Ok? ==> r.value == t[0].0 + t[1].0 + t[2].0 + t[3].0
  {
    var union: set<string> := {};
    for i := 0 to 4
      invariant union == (if i > 0 then t[0].0 else {}) + (if i > 1 then t[1].0 else {})
                       + (if i > 2 then t[2].0 else {}) + (if i > 3 then t[3].0 else {})
      invariant i > 1 ==> t[0].0 !! t[1].0
      invariant i > 2 ==> t[0].0 !! t[1].0 !! t[2].0
      invariant i > 3 ==> t[0].0 !! t[1].0 !! t[2].0 !! t[3].0
    {
      if union * t[i].0 != {} { return Err; }
      union := union + t[i].0;
    }
    return Ok(union);
  }

  /** The checks in the order the contract makes them. */
  method CheckManifest(status: string, m: Json, budgetExceeded: bool) returns (r: Result<Outcome>)
    requires m.Obj?
    ensures r.Ok? <==> ManifestAccepted(status, m, budgetExceeded)
    ensures r.Ok? ==> r.value == ManifestOutcome(status, m, budgetExceeded)
  {
    hide Get, WaiverExplained, FailureClassified, CoverageOf, ManifestKind;
    if Get(m, "schema_version") != Some(Str(MANIFEST_SCHEMA)) { return Err; }
    if Get(m, "operation") != Some(Str("review")) { return Err; }
    var state := GetOrNull(m, "terminal_state");
    if !state.Str? || ManifestKind(state.text).None? { return Err; }
    if status != state.text { return Err; }
    var coverage := CoverageOf(m);
    if coverage.None? { return Err; }
    var selected := CoverageIds(coverage.value.selected);
    if selected.Err? { return Err; }
    var read := ReadTerminals(coverage.value);
    if read.Err? { return Err; }
    var terminals := read.value;
    var union := JoinTerminals(terminals);
    if union.Err? { return Err; }
    if union.value != selected.value.0 { return Err; }
    var budgetFailure := ValidateFailureRecords(terminals[2].1);
    if budgetFailure.Err? { return Err; }
    for i := 0 to |terminals[3].1|
      invariant forall k | 0 <= k < i :: WaiverExplained(terminals[3].1[k])
    {
      if !WaiverExplained(terminals[3].1[i]) { return Err; }
    }
    var runFailure := GetOrNull(m, "run_failure");
    if !ValidRunFailure(runFailure) { return Err; }
    var failed := terminals[2].0;
    var derived := if runFailure != NO_RUN_FAILURE then "failed"
                   else if selected.value.0 == {} then "skipped"
                   else if failed == {} then "complete"
                   else if failed == selected.value.0 then "failed" else "partial";
    if state.text != derived { return Err; }
    if budgetExceeded && !(budgetFailure.value ||
                           (runFailure.Obj? && Get(runFailure, "classification").value.text == "budget")) {
      return Err;
    }
    if (state.text == "complete" || state.text == "skipped") && budgetExceeded { return Err; }
    return Ok(ManifestOutcome(status, m, budgetExceeded));
  }

  // The result as a whole.

  /** The optional summary flag; only a real boolean counts. */
  function BudgetExceeded(result: Json): Result<bool>
    requires result.Obj?
  {
    var summary := GetOrNull(result, "summary");
    if summary == Null then Ok(false)
    else if !summary.Obj? then Err
    else match Get(summary, "budget_exceeded")
      case None => Ok(false)
      case Some(Bool(b)) => Ok(b)
      case _ => Err
  }

  function StatusOf(result: Json): Result<string>
    requires result.Obj?
  {
    match Get(result, "status")
    case None => Ok("success")
    case Some(Str(s)) => if s == "" then Err else Ok(s)
    case _ => Err
  }

  function ParseOutcome(result: Json): Result<Outcome>
    requires result.Obj?
  {
    var status, budget, manifest := StatusOf(result), BudgetExceeded(result), GetOrNull(result, "manifest");
    if status.Err? || budget.Err? then Err
    else if manifest != Null then
      if ManifestAccepted(status.value, manifest, budget.value)
      then Ok(ManifestOutcome(status.value, manifest, budget.value)) else Err
    else if LegacyKind(status.value).None? || (status.value == "budget_exceeded") != budget.value then Err
    else Ok(Outcome(status.value, LegacyKind(status.value).value, budget.value, false, 0, 0, 0, 0, 0, []))
  }

  // What acceptance guarantees.

  lemma {:induction false} DistinctCounted(ids: seq<string>)
    requires Distinct(ids)
    ensures |set id | id in ids| == |ids|
  {
    if ids != [] {
      var n := |ids| - 1;
      DistinctCounted(ids[..n]);
      assert (set id | id in ids) == (set id | id in ids[..n]) + {ids[n]};
    }
  }

  lemma DistinctIdsCounted(items: seq<Json>)
    requires forall i | 0 <= i < |items| :: Identified(items[i])
    requires Distinct(IdsOf(items))
    ensures |set i | 0 <= i < |items| :: IdOf(items[i])| == |items|
  {
    DistinctCounted(IdsOf(items));
    var ids := IdsOf(items);
    assert forall i | 0 <= i < |items| :: ids[i] == IdOf(items[i]);
    assert (set i | 0 <= i < |items| :: IdOf(items[i])) == (set id | id in ids);
  }

  /** Coverage is conserved: every selected record is counted in exactly one terminal state,
      and each count is the number of records in its array. */
  lemma CoverageConserved(status: string, m: Json, budgetExceeded: bool)
    requires ManifestAccepted(status, m, budgetExceeded)
    ensures var o, c := ManifestOutcome(status, m, budgetExceeded), CoverageOf(m).value;
            && o.selected == o.completed + o.reused + o.failed + o.waived
            && o.selected == |c.selected.value.items| && o.completed == |c.completed.value.items|
            && o.reused == |c.reused.value.items| && o.failed == |c.failed.value.items| == |o.failedItems|
            && o.waived == |c.waived.value.items|
  {
    var c := CoverageOf(m).value;
    DistinctIdsCounted(c.selected.value.items);
    DistinctIdsCounted(c.completed.value.items);
    DistinctIdsCounted(c.reused.value.items);
    DistinctIdsCounted(c.failed.value.items);
    DistinctIdsCounted(c.waived.value.items);
  }

  /** A state, the failed and selected item sets, and whether the run itself failed. */
  predicate StateFits(state: string, selected: set<string>, failed: set<string>, runFailed: bool) {
    state == if runFailed then "failed" else if selected == {} then "skipped"
             else if failed == {} then "complete" else if failed == selected then "failed" else "partial"
  }

  lemma AcceptedState(status: string, m: Json, budgetExceeded: bool)
    requires ManifestAccepted(status, m, budgetExceeded)
    ensures var o := ManifestOutcome(status, m, budgetExceeded);
            exists selected, failed ::
              && failed <= selected && o.selected == |selected| && o.failed == |failed|
              && StateFits(status, selected, failed, GetOrNull(m, "run_failure") != NO_RUN_FAILURE)
              && ManifestKind(status) == Some(o.kind)
              && (o.budgetExceeded ==> status != "complete" && status != "skipped")
  {
    var c := CoverageOf(m).value;
    var selected, failed := IdSet(c.selected), IdSet(c.failed);
    assert failed <= selected;
    assert StateFits(status, selected, failed, GetOrNull(m, "run_failure") != NO_RUN_FAILURE);
  }

  lemma KindOfState(state: string, selected: set<string>, failed: set<string>, runFailed: bool, kind: Kind)
    requires StateFits(state, selected, failed, runFailed) && failed <= selected
    requires ManifestKind(state) == Some(kind)
    ensures kind == Partial <==> !runFailed && 0 < |failed| < |selected|
    ensures kind == Failed <==> runFailed || 0 < |failed| == |selected|
    ensures kind == Clean <==> !runFailed && 0 == |failed| < |selected|
    ensures kind == Skipped <==> !runFailed && |selected| == 0
    ensures state != "complete" && state != "skipped" <==> kind == Partial || kind == Failed
  {
    SubsetSize(failed, selected);
    if |failed| == |selected| { SubsetOfEqualSize(failed, selected); }
  }

  /** The kind of an accepted manifest, told from its counts and its run failure alone. */
  lemma KindFromCounts(status: string, m: Json, budgetExceeded: bool)
    requires ManifestAccepted(status, m, budgetExceeded)
    ensures var o := ManifestOutcome(status, m, budgetExceeded);
            var runFailed := GetOrNull(m, "run_failure") != NO_RUN_FAILURE;
            && (o.kind == Partial <==> !runFailed && 0 < o.failed < o.selected)
            && (o.kind == Failed <==> runFailed || 0 < o.failed == o.selected)
            && (o.kind == Clean <==> !runFailed && 0 == o.failed < o.selected)
            && (o.kind == Skipped <==> !runFailed && o.selected == 0)
            && (o.budgetExceeded ==> o.kind == Partial || o.kind == Failed)
  {
    AcceptedState(status, m, budgetExceeded);
    hide ManifestAccepted, StateFits, ManifestKind;
    var o, runFailed := ManifestOutcome(status, m, budgetExceeded), GetOrNull(m, "run_failure") != NO_RUN_FAILURE;
    var selected, failed :|
      && failed <= selected && o.selected == |selected| && o.failed == |failed|
      && StateFits(status, selected, failed, runFailed)
      && ManifestKind(status) == Some(o.kind)
      && (o.budgetExceeded ==> status != "complete" && status != "skipped");
    KindOfState(status, selected, failed, runFailed, o.kind);
  }
}
