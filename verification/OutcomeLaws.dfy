/** What a result is accepted as, told from its own fields: status, summary flag, and the records
    of the coverage manifest. */
module OutcomeLaws {
  import opened Json
  import opened PyText
  import opened Collections
  import opened ResultContract

  // Status and flag.

  /** The status a result states; a result without one succeeded. */
  predicate States(result: Json, status: string)
    requires result.Obj?
  {
    status != "" && (Get(result, "status") == Some(Str(status)) ||
                     (Get(result, "status") == None && status == "success"))
  }

  /** The budget flag a result states; without one it is not set. */
  predicate Flags(result: Json, exceeded: bool)
    requires result.Obj?
  {
    var summary := GetOrNull(result, "summary");
    || (summary == Null && !exceeded)
    || (summary.Obj? && (Get(summary, "budget_exceeded") == Some(Bool(exceeded)) ||
                         (Get(summary, "budget_exceeded") == None && !exceeded)))
  }

  lemma StatusIsStated(result: Json)
    requires result.Obj?
    ensures StatusOf(result).Ok? <==> exists s :: States(result, s)
    ensures forall s :: States(result, s) ==> StatusOf(result) == Ok(s)
  {
    if StatusOf(result).Ok? { assert States(result, StatusOf(result).value); }
  }

  lemma FlagIsStated(result: Json)
    requires result.Obj?
    ensures BudgetExceeded(result).Ok? <==> exists b :: Flags(result, b)
    ensures forall b :: Flags(result, b) ==> BudgetExceeded(result) == Ok(b)
  {
    if BudgetExceeded(result).Ok? { assert Flags(result, BudgetExceeded(result).value); }
  }

  // Results without a manifest.

  /** A result without a manifest is accepted exactly for the five statuses, and only with the
      budget flag that its status implies. */
  lemma LegacyAcceptance(result: Json)
    requires result.Obj? && GetOrNull(result, "manifest") == Null
    ensures ParseOutcome(result).Ok? <==>
            exists s :: && States(result, s) && Flags(result, s == "budget_exceeded")
                        && s in {"success", "completed_with_warnings", "completed_with_errors",
                                 "budget_exceeded", "skipped"}
  {
    hide States, Flags, StatusOf, BudgetExceeded;
    StatusIsStated(result);
    FlagIsStated(result);
  }

  /** What it is accepted as. No status of an incomplete review reads as a clean one. */
  lemma LegacyOutcome(result: Json, status: string)
    requires result.Obj? && GetOrNull(result, "manifest") == Null
    requires ParseOutcome(result).Ok? && States(result, status)
    ensures var o := ParseOutcome(result).value;
            && o.status == status && !o.manifestPresent
            && (o.kind == Partial <==> status == "completed_with_errors" || status == "budget_exceeded")
            && (o.kind == Warning <==> status == "completed_with_warnings")
            && (o.kind == Skipped <==> status == "skipped")
            && (o.kind == Clean <==> status == "success")
            && o.kind != Failed
            && (o.budgetExceeded <==> status == "budget_exceeded")
            && o.selected == o.completed == o.reused == o.failed == o.waived == 0 && o.failedItems == []
  {
    hide States, Flags, StatusOf, BudgetExceeded;
    StatusIsStated(result);
    FlagIsStated(result);
  }

  // Manifests, from their records.

  /** The records under a field of the coverage object. */
  function Records(coverage: Json, field: string): seq<Json>
    requires coverage.Obj?
  {
    match Get(coverage, field)
    case Some(Arr(items)) => items
    case _ => []
  }

  predicate Says(record: Json, key: string, text: string) { record.Obj? && Get(record, key) == Some(Str(text)) }

  /** Some record under the field has this identity. */
  ghost predicate Holds(coverage: Json, field: string, id: string)
    requires coverage.Obj?
  {
    exists i :: 0 <= i < |Records(coverage, field)| && Says(Records(coverage, field)[i], "item_id", id)
  }

  /** At most 10,000 records, each with an identity of 1 to 256 characters without whitespace, no
      two with the same. */
  ghost predicate WellListed(coverage: Json, field: string)
    requires coverage.Obj?
  {
    var records := Records(coverage, field);
    && Get(coverage, field) == Some(Arr(records)) && |records| <= 10_000
    && (forall i | 0 <= i < |records| ::
          exists id: string :: Says(records[i], "item_id", id) && 1 <= |id| <= 256 && SpaceFree(id))
    && (forall i, j, id: string | 0 <= i < j < |records| && Says(records[i], "item_id", id) ::
          !Says(records[j], "item_id", id))
  }

  predicate SpaceFree(s: string) { forall k | 0 <= k < |s| :: !IsSpace(s[k]) }

  lemma RecordIdentified(record: Json)
    ensures Identified(record) <==>
            exists id: string :: Says(record, "item_id", id) && 1 <= |id| <= 256 && SpaceFree(id)
    ensures Identified(record) ==> forall id: string :: Says(record, "item_id", id) <==> id == IdOf(record)
  {
    if Identified(record) { assert Says(record, "item_id", IdOf(record)); }
  }

  lemma ListedAsValid(coverage: Json, field: string)
    requires coverage.Obj?
    ensures WellListed(coverage, field) <==> ValidCoverage(Get(coverage, field))
    ensures ValidCoverage(Get(coverage, field)) ==>
              forall id :: id in IdSet(Get(coverage, field)) <==> Holds(coverage, field, id)
  {
    hide Says, Identified, IdOf;
    var records := Records(coverage, field);
    forall i | 0 <= i < |records|
      ensures Identified(records[i]) <==>
              exists id: string :: Says(records[i], "item_id", id) && 1 <= |id| <= 256 && SpaceFree(id)
      ensures Identified(records[i]) ==>
                forall id: string :: Says(records[i], "item_id", id) <==> id == IdOf(records[i])
    {
      RecordIdentified(records[i]);
    }
    if forall i | 0 <= i < |records| :: Identified(records[i]) {
      ListedOnce(records);
    }
  }

  lemma ListedOnce(records: seq<Json>)
    requires forall i | 0 <= i < |records| :: Identified(records[i])
    ensures Distinct(IdsOf(records)) <==>
            forall i, j, id: string | 0 <= i < j < |records| && Says(records[i], "item_id", id) ::
              !Says(records[j], "item_id", id)
  {
    hide Says, Identified, IdOf;
    var ids := IdsOf(records);
    forall i | 0 <= i < |records|
      ensures ids[i] == IdOf(records[i]) && forall id: string :: Says(records[i], "item_id", id) <==> id == ids[i]
    {
      RecordIdentified(records[i]);
    }
    forall i, j | 0 <= i < j < |records|
      ensures ids[i] == ids[j] <==> Says(records[i], "item_id", ids[i]) && Says(records[j], "item_id", ids[i])
    {
    }
  }

  // The partition and the state.

  const TERMINAL := ["completed", "reused", "failed", "waived"]

  ghost function Once(b: bool): nat { if b then 1 else 0 }

  /** In how many of the four arrays an identity ends. */
  ghost function Ends(coverage: Json, id: string): nat
    requires coverage.Obj?
  {
    Once(Holds(coverage, "completed", id)) + Once(Holds(coverage, "reused", id))
    + Once(Holds(coverage, "failed", id)) + Once(Holds(coverage, "waived", id))
  }

  /** Every selected identity ends once, and no other one does. */
  ghost predicate EndsOnce(coverage: Json)
    requires coverage.Obj?
  {
    forall id :: Ends(coverage, id) == Once(Holds(coverage, "selected", id))
  }

  ghost predicate ArraysListed(coverage: Json)
    requires coverage.Obj?
  {
    WellListed(coverage, "selected") && forall field | field in TERMINAL :: WellListed(coverage, field)
  }

  ghost predicate Classed(r: Json) {
    exists k :: Says(r, "classification", k) && k in {"provider", "timeout", "cancelled", "configuration",
                                                      "input", "budget", "panic", "unknown"}
  }

  ghost predicate RunClassed(f: Json) {
    exists k :: Says(f, "classification", k)
                && k in {"input", "configuration", "timeout", "cancelled", "budget", "internal", "unknown"}
  }

  ghost predicate Reasoned(r: Json) {
    exists reason: string :: Says(r, "reason", reason) && !Blank(reason) && |reason| <= 2_000
  }

  /** Every failure has a known class, every waiver a reason that is not blank and not too long. */
  ghost predicate Explained(coverage: Json)
    requires coverage.Obj?
  {
    && (forall i | 0 <= i < |Records(coverage, "failed")| :: Classed(Records(coverage, "failed")[i]))
    && (forall i | 0 <= i < |Records(coverage, "waived")| :: Reasoned(Records(coverage, "waived")[i]))
  }

  ghost predicate RunFailed(m: Json)
    requires m.Obj?
  {
    GetOrNull(m, "run_failure") != Null
  }

  /** The terminal state, told from the sizes of two arrays. */
  predicate StateOf(state: string, runFailed: bool, selected: nat, failed: nat) {
    || (state == "failed" && (runFailed || 0 < failed == selected))
    || (state == "skipped" && !runFailed && selected == 0)
    || (state == "complete" && !runFailed && failed == 0 < selected)
    || (state == "partial" && !runFailed && 0 < failed < selected)
  }

  /** A manifest that agrees with its status and flag. */
  ghost predicate Agrees(m: Json, status: string, exceeded: bool) {
    && m.Obj? && Says(m, "schema_version", "ocr.run-manifest/v1") && Says(m, "operation", "review")
    && Says(m, "terminal_state", status)
    && Get(m, "coverage").Some? && Get(m, "coverage").value.Obj?
    && var c := Get(m, "coverage").value;
       && ArraysListed(c) && EndsOnce(c) && Explained(c)
       && (RunFailed(m) ==> RunClassed(GetOrNull(m, "run_failure")))
       && StateOf(status, RunFailed(m), |Records(c, "selected")|, |Records(c, "failed")|)
       && (exceeded ==> && (status == "partial" || status == "failed")
                        && ((exists i :: && 0 <= i < |Records(c, "failed")|
                                         && Says(Records(c, "failed")[i], "classification", "budget"))
                            || Says(GetOrNull(m, "run_failure"), "classification", "budget")))
  }

  // Acceptance.

  /** The coverage object of a manifest, as the contract reads it. */
  ghost predicate Covers(m: Json, coverage: Json, c: Coverage) {
    m.Obj? && coverage.Obj? && Get(m, "coverage") == Some(coverage) && CoverageOf(m) == Some(c)
  }

  lemma ArraysAsValid(m: Json, coverage: Json, c: Coverage)
    requires Covers(m, coverage, c)
    ensures ArraysListed(coverage) <==> ValidArrays(c)
    ensures ValidArrays(c) ==>
              forall id :: && (id in IdSet(c.selected) <==> Holds(coverage, "selected", id))
                           && (id in IdSet(c.completed) <==> Holds(coverage, "completed", id))
                           && (id in IdSet(c.reused) <==> Holds(coverage, "reused", id))
                           && (id in IdSet(c.failed) <==> Holds(coverage, "failed", id))
                           && (id in IdSet(c.waived) <==> Holds(coverage, "waived", id))
  {
    hide WellListed, ValidCoverage, IdSet, Holds;
    ListedAsValid(coverage, "selected");
    ListedAsValid(coverage, "completed");
    ListedAsValid(coverage, "reused");
    ListedAsValid(coverage, "failed");
    ListedAsValid(coverage, "waived");
    assert TERMINAL[0] == "completed" && TERMINAL[1] == "reused" && TERMINAL[2] == "failed" && TERMINAL[3] == "waived";
  }

  lemma PartitionEndsOnce(m: Json, coverage: Json, c: Coverage)
    requires Covers(m, coverage, c) && ValidArrays(c)
    ensures Partitioned(c) <==> EndsOnce(coverage)
  {
    ArraysAsValid(m, coverage, c);
    hide Holds, ValidCoverage, IdSet, ArraysListed, CoverageOf, Once;
    SetsEndOnce(IdSet(c.completed), IdSet(c.reused), IdSet(c.failed), IdSet(c.waived), IdSet(c.selected));
    forall id
      ensures Ends(coverage, id) == OnceIn(IdSet(c.completed), IdSet(c.reused), IdSet(c.failed), IdSet(c.waived), id)
      ensures Holds(coverage, "selected", id) == (id in IdSet(c.selected))
    {
    }
  }

  ghost function OnceIn(a: set<string>, b: set<string>, c: set<string>, d: set<string>, id: string): nat {
    Once(id in a) + Once(id in b) + Once(id in c) + Once(id in d)
  }

  lemma SetsEndOnce(a: set<string>, b: set<string>, c: set<string>, d: set<string>, all: set<string>)
    ensures (a !! b !! c !! d && a + b + c + d == all) <==> (forall id :: OnceIn(a, b, c, d, id) == Once(id in all))
  {
    if a !! b !! c !! d && a + b + c + d == all {
      forall id ensures OnceIn(a, b, c, d, id) == Once(id in all) {
        assert id in a + b + c + d <==> id in all;
      }
    }
    if forall id :: OnceIn(a, b, c, d, id) == Once(id in all) {
      forall id
        ensures id in a + b + c + d <==> id in all
        ensures id !in a * b && id !in (a + b) * c && id !in (a + b + c) * d
      {
        assert OnceIn(a, b, c, d, id) == Once(id in all);
      }
      assert a !! b && (a + b) !! c && (a + b + c) !! d;
      assert a + b + c + d == all;
    }
  }

  lemma RecordExplained(r: Json)
    requires r.Obj?
    ensures FailureClassified(r) <==> Classed(r)
    ensures FailureClassified(r) ==> forall k :: Says(r, "classification", k) <==> k == ClassOf(r)
    ensures WaiverExplained(r) <==> Reasoned(r)
  {
    hide Blank;
    if FailureClassified(r) { assert Says(r, "classification", ClassOf(r)); }
    if WaiverExplained(r) { assert Says(r, "reason", Get(r, "reason").value.text); }
  }

  lemma ExplainedAsValid(m: Json, coverage: Json, c: Coverage)
    requires Covers(m, coverage, c) && ValidArrays(c)
    ensures ExplainedRecords(c) <==> Explained(coverage)
  {
    hide FailureClassified, Classed, WaiverExplained, Reasoned, ValidId, IdsOf;
    var failed, waived := Records(coverage, "failed"), Records(coverage, "waived");
    assert failed == c.failed.value.items && waived == c.waived.value.items;
    forall i | 0 <= i < |failed| ensures FailureClassified(failed[i]) <==> Classed(failed[i]) {
      RecordExplained(failed[i]);
    }
    forall i | 0 <= i < |waived| ensures WaiverExplained(waived[i]) <==> Reasoned(waived[i]) {
      RecordExplained(waived[i]);
    }
  }

  lemma RunFailureAsValid(f: Json)
    ensures ValidRunFailure(f) <==> f == Null || RunClassed(f)
  {
    if ValidRunFailure(f) && f != Null { assert Says(f, "classification", Get(f, "classification").value.text); }
  }

  lemma BudgetAsValid(m: Json, coverage: Json, c: Coverage)
    requires Covers(m, coverage, c) && ValidArrays(c) && ExplainedRecords(c)
    requires ValidRunFailure(GetOrNull(m, "run_failure"))
    ensures BudgetFailure(c, GetOrNull(m, "run_failure")) <==>
            || (exists i :: && 0 <= i < |Records(coverage, "failed")|
                            && Says(Records(coverage, "failed")[i], "classification", "budget"))
            || Says(GetOrNull(m, "run_failure"), "classification", "budget")
  {
    hide FailureClassified, WaiverExplained, ValidId, IdsOf, ClassOf;
    var items := Records(coverage, "failed");
    assert items == c.failed.value.items;
    forall i | 0 <= i < |items| ensures Says(items[i], "classification", "budget") <==> ClassOf(items[i]) == "budget" {
      RecordExplained(items[i]);
    }
  }

  lemma StateAsDerived(m: Json, coverage: Json, c: Coverage, state: string)
    requires Covers(m, coverage, c) && ValidArrays(c) && Partitioned(c)
    ensures state == DerivedState(c, GetOrNull(m, "run_failure")) <==>
            StateOf(state, RunFailed(m), |Records(coverage, "selected")|, |Records(coverage, "failed")|)
  {
    hide ValidCoverage, IdSet, Records;
    ArrayCounted(coverage, "selected");
    ArrayCounted(coverage, "failed");
    var selected, failed := IdSet(c.selected), IdSet(c.failed);
    assert failed <= selected;
    SubsetSize(failed, selected);
    if |failed| == |selected| { SubsetOfEqualSize(failed, selected); }
  }

  lemma ArrayCounted(coverage: Json, field: string)
    requires coverage.Obj? && ValidCoverage(Get(coverage, field))
    ensures |IdSet(Get(coverage, field))| == |Records(coverage, field)|
  {
    DistinctIdsCounted(Records(coverage, field));
  }

  /** The contract accepts exactly the manifests that agree with their status and flag. */
  lemma ManifestAcceptance(status: string, m: Json, exceeded: bool)
    ensures ManifestAccepted(status, m, exceeded) <==> Agrees(m, status, exceeded)
  {
    if m.Obj? && CoverageOf(m).Some? {
      var coverage, c := Get(m, "coverage").value, CoverageOf(m).value;
      AgreesAsAccepted(m, coverage, c, status, exceeded);
    }
  }

  lemma AgreesAsAccepted(m: Json, coverage: Json, c: Coverage, status: string, exceeded: bool)
    requires Covers(m, coverage, c)
    ensures ManifestAccepted(status, m, exceeded) <==> Agrees(m, status, exceeded)
  {
    hide ArraysListed, EndsOnce, Explained, ValidArrays, Partitioned, ExplainedRecords, ValidRunFailure, BudgetFailure;
    hide DerivedState, Records, CoverageOf;
    ArraysAsValid(m, coverage, c);
    RunFailureAsValid(GetOrNull(m, "run_failure"));
    if ValidArrays(c) {
      PartitionEndsOnce(m, coverage, c);
      ExplainedAsValid(m, coverage, c);
      if Partitioned(c) { StateAsDerived(m, coverage, c, status); }
      if ExplainedRecords(c) && ValidRunFailure(GetOrNull(m, "run_failure")) { BudgetAsValid(m, coverage, c); }
    }
  }

  // What is reported.

  /** One failed item as the outcome reports it. */
  predicate Reports(f: CoverageFailure, record: Json) {
    && Says(record, "item_id", f.itemId) && Says(record, "classification", f.classification)
    && f.path == GetOrNull(record, "path") && f.reason == GetOrNull(record, "reason")
  }

  /** An accepted result with a manifest is reported by its own fields: status and flag, the
      length of each array, and the failed records in order. */
  lemma ManifestOutcomeReports(result: Json)
    requires result.Obj? && ParseOutcome(result).Ok? && GetOrNull(result, "manifest") != Null
    ensures var m := GetOrNull(result, "manifest");
            && m.Obj? && Get(m, "coverage").Some? && Get(m, "coverage").value.Obj?
            && var o, c := ParseOutcome(result).value, Get(m, "coverage").value;
               && States(result, o.status) && Flags(result, o.budgetExceeded) && o.manifestPresent
               && (o.kind == match o.status case "complete" => Clean case "partial" => Partial
                                            case "failed" => Failed case _ => Skipped)
               && o.selected == |Records(c, "selected")| && o.completed == |Records(c, "completed")|
               && o.reused == |Records(c, "reused")| && o.failed == |Records(c, "failed")|
               && o.waived == |Records(c, "waived")| && |o.failedItems| == o.failed
               && (forall i | 0 <= i < o.failed :: Reports(o.failedItems[i], Records(c, "failed")[i]))
  {
    hide States, Flags, StatusOf, BudgetExceeded, ManifestAccepted, ManifestOutcome, Records;
    StatusIsStated(result);
    FlagIsStated(result);
    OutcomeReports(StatusOf(result).value, GetOrNull(result, "manifest"), BudgetExceeded(result).value);
  }

  lemma OutcomeReports(status: string, m: Json, exceeded: bool)
    requires ManifestAccepted(status, m, exceeded)
    ensures m.Obj? && Get(m, "coverage").Some? && Get(m, "coverage").value.Obj?
    ensures var o, c := ManifestOutcome(status, m, exceeded), Get(m, "coverage").value;
            && o.status == status && o.budgetExceeded == exceeded && o.manifestPresent
            && (o.kind == match o.status case "complete" => Clean case "partial" => Partial
                                         case "failed" => Failed case _ => Skipped)
            && o.selected == |Records(c, "selected")| && o.completed == |Records(c, "completed")|
            && o.reused == |Records(c, "reused")| && o.failed == |Records(c, "failed")|
            && o.waived == |Records(c, "waived")| && |o.failedItems| == o.failed
            && (forall i | 0 <= i < o.failed :: Reports(o.failedItems[i], Records(c, "failed")[i]))
  {
    hide Partitioned, DerivedState, BudgetFailure, WaiverExplained;
    CoverageConserved(status, m, exceeded);
  }

  /** A result with a manifest is accepted exactly when status, flag and manifest agree. */
  lemma ManifestResultAcceptance(result: Json)
    requires result.Obj? && GetOrNull(result, "manifest") != Null
    ensures ParseOutcome(result).Ok? <==>
            exists s, b :: States(result, s) && Flags(result, b) && Agrees(GetOrNull(result, "manifest"), s, b)
  {
    hide States, Flags, StatusOf, BudgetExceeded, Agrees, ManifestAccepted;
    StatusIsStated(result);
    FlagIsStated(result);
    if StatusOf(result).Ok? && BudgetExceeded(result).Ok? {
      ManifestAcceptance(StatusOf(result).value, GetOrNull(result, "manifest"), BudgetExceeded(result).value);
    }
  }
}
