/** The rules of evidence attribution on the counts themselves: when one is given, and what it says. */
module EvidenceRules {
  import opened Json
  import opened Collections
  import opened EvidenceAccounting

  /** Keys and range of a table of counts. */
  predicate CountsOf(c: Counts, keys: set<string>) {
    c.Keys == keys && forall k | k in c :: 0 <= c[k] <= 1_000_000_000
  }

  const EVERY_ACTION := {"summary", "list", "get", "search", "coverage"}

  /** The counts of the evidence server agree with themselves and with the calls seen outside: no
      action was completed more often than attempted, and no tool received more than it was called. */
  predicate Agreeing(t: ByTool, c: ActionCounts) {
    && CountsOf(c.attempted, EVERY_ACTION + {"unattributed"}) && CountsOf(c.completed, EVERY_ACTION)
    && (forall a | a in EVERY_ACTION :: c.completed[a] <= c.attempted[a])
    && c.attempted["summary"] + c.attempted["list"] + c.attempted["get"] + c.attempted["unattributed"] <= t.primary
    && c.attempted["search"] <= t.search && c.attempted["coverage"] <= t.coverage
  }

  /** An attribution is given exactly for agreeing counts, with a completed summary if evidence is
      mandatory; without counts, exactly if there was no call and evidence is not mandatory. */
  lemma AttributedExactly(t: ByTool, counts: Option<ActionCounts>, mandatory: bool)
    ensures Attribute(t, counts, mandatory).Ok? <==>
            match counts
            case None => t.primary == t.search == t.coverage == 0 && !mandatory
            case Some(c) => Agreeing(t, c) && (mandatory ==> c.completed["summary"] >= 1)
  {
    hide Shaped, Bounded, AllBounded;
    match counts
    case None => ShapedExactly(Zeros(BUCKETS), Zeros(ACTIONS));
    case Some(c) => ShapedExactly(c.attempted, c.completed);
  }

  lemma ShapedExactly(attempted: Counts, completed: Counts)
    ensures Shaped(attempted, completed) <==>
            && CountsOf(attempted, EVERY_ACTION + {"unattributed"}) && CountsOf(completed, EVERY_ACTION)
            && forall a | a in EVERY_ACTION :: completed[a] <= attempted[a]
  {
    assert EVERY_ACTION == ACTIONS && EVERY_ACTION + {"unattributed"} == BUCKETS;
  }

  /** What it says: every attempt and completion as counted, and every other call as unattributed. */
  lemma AttributionSays(t: ByTool, counts: Option<ActionCounts>, mandatory: bool)
    requires Attribute(t, counts, mandatory).Ok?
    ensures var v := Attribute(t, counts, mandatory).value;
            && v.Verified? && v.attempted.Keys == EVERY_ACTION + {"unattributed"} && v.completed.Keys == EVERY_ACTION
            && (forall a | a in EVERY_ACTION ::
                  && v.attempted[a] == (if counts.Some? then counts.value.attempted[a] else 0)
                  && v.completed[a] == (if counts.Some? then counts.value.completed[a] else 0))
            && v.attempted["unattributed"] == t.primary + t.search + t.coverage
               - v.attempted["summary"] - v.attempted["list"] - v.attempted["get"]
               - v.attempted["search"] - v.attempted["coverage"]
  {
    assert EVERY_ACTION == ACTIONS;
  }

  /** The validator takes an attribution exactly if it is one of these tables, holds all calls, and
      shows the mandatory summary. */
  lemma ValidatedExactly(v: Attribution, calls: int, mandatory: bool)
    ensures ValidActions(v, calls, mandatory) <==>
            match v
            case Unavailable => calls == 0
            case Verified(attempted, completed) =>
              && CountsOf(attempted, EVERY_ACTION + {"unattributed"}) && CountsOf(completed, EVERY_ACTION)
              && (forall a | a in EVERY_ACTION :: completed[a] <= attempted[a])
              && attempted["summary"] + attempted["list"] + attempted["get"] + attempted["search"]
                 + attempted["coverage"] + attempted["unattributed"] == calls
              && (mandatory ==> completed["summary"] >= 1)
  {
  }

  /** The actions a receipt shows as completed, all together. */
  lemma CompletedSays(v: Attribution)
    ensures v.Unavailable? ==> Completed(v) == 0
    ensures v.Verified? && CountsOf(v.completed, EVERY_ACTION) ==>
              Completed(v) == v.completed["summary"] + v.completed["list"] + v.completed["get"]
                              + v.completed["search"] + v.completed["coverage"]
    ensures v.Verified? && !CountsOf(v.completed, EVERY_ACTION) ==> Completed(v) < 0
  {
  }

  /** Known tools are counted within their bound, and only the primary one may report none. */
  lemma AdmittedExactly(owners: map<string, string>, e: Entry)
    ensures Admitted(owners, e) <==>
            e.tool !in owners || (1 <= e.count <= 1_000_000_000) || (e.tool == "ocr_toolkit_evidence" && e.count == 0)
  {
  }

  /** The names in the telemetry, in its order. */
  function ToolsOf(calls: seq<Entry>): (names: seq<string>)
    ensures |names| == |calls| && forall i | 0 <= i < |calls| :: names[i] == calls[i].tool
  {
    seq(|calls|, i requires 0 <= i < |calls| => calls[i].tool)
  }

  lemma UniqueToolsExactly(calls: seq<Entry>)
    ensures UniqueTools(calls) <==> Distinct(ToolsOf(calls))
  {
  }

  /** The tools of the built-in server, in the order they are offered. */
  lemma BuiltinToolsAre(enriched: bool, diagrams: bool)
    ensures BUILTIN == "ocr_toolkit_evidence"
    ensures var evidence := ["ocr_toolkit_evidence", "ocr_toolkit_evidence_search", "ocr_toolkit_evidence_coverage"];
            BuiltinTools(enriched, diagrams) ==
            match (enriched, diagrams)
            case (false, false) => evidence
            case (true, false) => evidence + ["context_list", "context_get"]
            case (false, true) => evidence + ["ocr_toolkit_review_diagram"]
            case (true, true) => evidence + ["context_list", "context_get", "ocr_toolkit_review_diagram"]
  {
  }
}
