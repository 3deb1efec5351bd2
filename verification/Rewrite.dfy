/** What sanitising a result means: a recursive rewrite of the JSON tree under one fixed
    replacement table, with publication sinks left alone. */
module Rewrite {
  import opened Json
  import Placeholder

  const QUARANTINE_COMMENT_FIELDS := {
    "category", "content", "end_line", "existing_code", "line", "old_path", "path", "priority",
    "rule_id", "severity", "start_line", "suggestion_code"
  }

  const PROVIDER_PRIVATE_RESULT_KEYS := {
    "encrypted_content", "native_payload", "reasoning_content", "redacted_thinking", "thinking",
    "tool_choice"
  }

  const PUBLIC_REVIEW_TOOL_CALL_NAMES := {
    "code_comment", "code_search", "context_get", "context_list", "file_find", "file_read",
    "file_read_diff", "ocr_toolkit_evidence", "ocr_toolkit_evidence_coverage",
    "ocr_toolkit_evidence_search", "ocr_toolkit_review_diagram", "task_done"
  }

  const MAX_RESULT_BYTES_HARD_LIMIT := 20_000_000

  datatype Verdict = Admitted | Rejected(reason: string)

  /** The text admission check: any deterministic verdict on strings. */
  type Admission = string -> Verdict

  predicate IsSink(path: Path) {
    || path == [Key("message")]
    || (|path| > 0 && path[0] == Key("warnings"))
    || (|path| >= 3 && path[0] == Key("comments") && path[1].Index?
        && path[2].Key? && path[2].name in QUARANTINE_COMMENT_FIELDS)
    || (|path| >= 5 && path[..3] == [Key("manifest"), Key("coverage"), Key("failed")]
        && path[3].Index? && (path[4] == Key("path") || path[4] == Key("reason")))
  }

  predicate IsToolLabel(path: Path) {
    |path| == 3 && path[..2] == [Key("tool_calls"), Key("by_tool")]
    && path[2].Key? && path[2].name in PUBLIC_REVIEW_TOOL_CALL_NAMES
  }

  /** The key is reserved for provider-private payloads and cannot reach rendering. */
  predicate IsPrivate(path: Path)
    requires |path| > 0
  {
    var step := path[|path| - 1];
    step.Key? && step.name in PROVIDER_PRIVATE_RESULT_KEYS && !IsSink(path)
  }

  /** The key itself is subject to text admission and fails it. */
  predicate IsRejectedKey(path: Path, check: Admission)
    requires |path| > 0
  {
    var step := path[|path| - 1];
    step.Key? && !IsSink(path) && !IsToolLabel(path) && check(step.name).Rejected?
  }

  predicate Survives(path: Path, check: Admission)
    requires |path| > 0
  {
    !IsPrivate(path) && !IsRejectedKey(path, check)
  }

  datatype Kid = Kid(step: Step, value: Json)

  /** The surviving ones among the first `n` children, in order. */
  function Retained(v: Json, path: Path, n: nat, check: Admission): (kids: seq<Kid>)
    requires v.Container() && n <= Width(v)
    ensures |kids| <= n
    ensures forall k | 0 <= k < |kids| :: kids[k].value < v
  {
    if n == 0 then []
    else
      var before := Retained(v, path, n - 1, check);
      var step := StepAt(v, n - 1);
      if Survives(path + [step], check) then before + [Kid(step, ChildAt(v, n - 1))] else before
  }

  function AllRetained(v: Json, path: Path, check: Admission): (kids: seq<Kid>)
    requires v.Container()
    ensures forall k | 0 <= k < |kids| :: kids[k].value < v
  {
    Retained(v, path, Width(v), check)
  }

  type Table = map<string, string>

  predicate MustReplace(v: Json, path: Path, check: Admission) {
    v.Str? && !IsSink(path) && check(v.text).Rejected?
  }

  function RewriteLeaf(v: Json, path: Path, check: Admission, table: Table): Json {
    if MustReplace(v, path, check) && v.text in table then Str(table[v.text]) else v
  }

  /** Puts rewritten children back into a value of the same shape as `v`. */
  function Rebuild(v: Json, kids: seq<Kid>, values: seq<Json>): Json
    requires v.Container() && |kids| == |values|
  {
    if v.Arr? then Arr(values)
    else Obj(seq(|kids|, k requires 0 <= k < |kids| =>
      Field(if kids[k].step.Key? then kids[k].step.name else "", values[k])))
  }

  function Rewritten(v: Json, path: Path, check: Admission, table: Table): Json
    decreases v
  {
    if !v.Container() then RewriteLeaf(v, path, check, table)
    else
      var kids := AllRetained(v, path, check);
      Rebuild(v, kids, seq(|kids|, k requires 0 <= k < |kids| =>
        Rewritten(kids[k].value, path + [kids[k].step], check, table)))
  }

  // What the walk counts.

  /** Rejection reasons with multiplicity, removed provider-private keys, and the distinct
      string values that need a placeholder. */
  datatype Tally = Tally(reasons: multiset<string>, removed: nat, replaced: set<string>)

  const NO_TALLY := Tally(multiset{}, 0, {})

  function Plus(a: Tally, b: Tally): Tally {
    Tally(a.reasons + b.reasons, a.removed + b.removed, a.replaced + b.replaced)
  }

  /** What one child adds at its own level: its key if dropped, its text if replaced. */
  function OwnTally(v: Json, path: Path, check: Admission): Tally
    requires |path| > 0
  {
    if IsPrivate(path) then Tally(multiset{}, 1, {})
    else if IsRejectedKey(path, check) then
      Tally(multiset{check(path[|path| - 1].name).reason}, 0, {})
    else if MustReplace(v, path, check) then
      Tally(multiset{check(v.text).reason}, 0, {v.text})
    else NO_TALLY
  }

  /** Everything the walk records below a container. */
  function TreeTally(v: Json, path: Path, check: Admission): Tally
    requires v.Container()
    decreases v, 1
  {
    KidsTally(v, path, Width(v), check)
  }

  function KidsTally(v: Json, path: Path, n: nat, check: Admission): Tally
    requires v.Container() && n <= Width(v)
    decreases v, 0, n
  {
    if n == 0 then NO_TALLY
    else
      var child, at := ChildAt(v, n - 1), path + [StepAt(v, n - 1)];
      Plus(KidsTally(v, path, n - 1, check),
           if child.Container() && Survives(at, check) then TreeTally(child, at, check)
           else OwnTally(child, at, check))
  }

  // The replacement table.

  /** The table was filled by numbering strings in the order of their first replacement. */
  ghost predicate NumberedBy(table: Table, order: seq<string>) {
    && |order| == |table|
    && (forall i, j | 0 <= i < j < |order| :: order[i] != order[j])
    && (forall i | 0 <= i < |order| :: order[i] in table && table[order[i]] == Placeholder.Label(i + 1))
    && (forall s | s in table :: s in order)
  }

  ghost predicate Numbered(table: Table) {
    exists order :: NumberedBy(table, order)
  }

  /** `setdefault` with the next placeholder: a string keeps the one it has. */
  function Assigned(table: Table, s: string): Table {
    if s in table then table else table[s := Placeholder.Label(|table| + 1)]
  }

  /** The numbering of texts in the order of their first use. */
  function NumberingOf(texts: seq<string>): Table {
    if texts == [] then map[] else Assigned(NumberingOf(texts[..|texts| - 1]), texts[|texts| - 1])
  }

  // The order in which the walk replaces.

  /** The texts replaced directly in a container, among its first `n` items, in item order. */
  function OwnTexts(v: Json, path: Path, n: nat, check: Admission): seq<string>
    requires v.Container() && n <= Width(v)
  {
    if n == 0 then []
    else
      var child, at := ChildAt(v, n - 1), path + [StepAt(v, n - 1)];
      OwnTexts(v, path, n - 1, check) +
      (if Survives(at, check) && MustReplace(child, at, check) then [child.text] else [])
  }

  /** The texts replaced below the surviving containers among the first `n` items: the containers
      were stacked in item order, so the last one comes first. */
  function LaterTexts(v: Json, path: Path, n: nat, check: Admission): seq<string>
    requires v.Container() && n <= Width(v)
    decreases v, 0, n
  {
    if n == 0 then []
    else
      var child, at := ChildAt(v, n - 1), path + [StepAt(v, n - 1)];
      (if child.Container() && Survives(at, check) then WalkTexts(child, at, check) else []) +
      LaterTexts(v, path, n - 1, check)
  }

  /** Every text replaced in a container, as often and in the order in which the walk meets it. */
  function WalkTexts(v: Json, path: Path, check: Admission): seq<string>
    requires v.Container()
    decreases v, 1
  {
    OwnTexts(v, path, Width(v), check) + LaterTexts(v, path, Width(v), check)
  }

  /** What item `n - 1` adds to the two parts of the order. */
  lemma OrderStep(v: Json, path: Path, n: nat, check: Admission)
    requires v.Container() && 0 < n <= Width(v)
    ensures var child, at := ChildAt(v, n - 1), path + [StepAt(v, n - 1)];
            && OwnTexts(v, path, n, check) == OwnTexts(v, path, n - 1, check)
               + (if Survives(at, check) && MustReplace(child, at, check) then [child.text] else [])
            && LaterTexts(v, path, n, check) ==
               (if child.Container() && Survives(at, check) then WalkTexts(child, at, check) else [])
               + LaterTexts(v, path, n - 1, check)
  {
    hide WalkTexts, Survives, MustReplace;
  }

  /** The table a walk over the payload leaves behind. */
  function LeftTable(payload: Json, check: Admission): Table
    requires payload.Container()
  {
    NumberingOf(WalkTexts(payload, [], check))
  }

  lemma NumberedGrows(table: Table, s: string)
    requires Numbered(table)
    ensures Numbered(Assigned(table, s)) && Assigned(table, s).Keys == table.Keys + {s}
  {
    hide NumberedBy, Placeholder.Label;
    if s !in table {
      var order :| NumberedBy(table, order);
      OrderGrows(table, order, s);
    }
  }

  lemma OrderGrows(table: Table, order: seq<string>, s: string)
    requires NumberedBy(table, order) && s !in table
    ensures NumberedBy(table[s := Placeholder.Label(|table| + 1)], order + [s])
  {
    hide Placeholder.Label;
    var table', order' := table[s := Placeholder.Label(|table| + 1)], order + [s];
    forall i | 0 <= i < |order'|
      ensures order'[i] in table' && table'[order'[i]] == Placeholder.Label(i + 1)
    {
      if i < |order| { assert order'[i] == order[i]; }
    }
    forall t | t in table' ensures t in order' {
      if t == s { assert order'[|order|] == s; } else { assert t in order; }
    }
  }

  lemma {:induction false} NumberingIsNumbered(texts: seq<string>)
    ensures Numbered(NumberingOf(texts)) && NumberingOf(texts).Keys == set t | t in texts
  {
    hide Numbered, Assigned;
    if texts == [] {
      NothingNumbered();
    } else {
      var before, last := texts[..|texts| - 1], texts[|texts| - 1];
      NumberingIsNumbered(before);
      NumberedGrows(NumberingOf(before), last);
      assert texts == before + [last];
    }
  }

  lemma NothingNumbered()
    ensures Numbered(map[])
  {
    assert NumberedBy(map[], []);
  }

  lemma NumberingSnoc(texts: seq<string>, s: string)
    ensures NumberingOf([]) == map[] && NumberingOf(texts + [s]) == Assigned(NumberingOf(texts), s)
  {
    assert (texts + [s])[..|texts|] == texts;
  }

  /** A text is numbered when it is first used, behind the distinct texts used before it. */
  lemma {:induction false} FirstUseDecides(before: seq<string>, s: string, after: seq<string>)
    requires s !in before
    ensures var table := NumberingOf(before + [s] + after);
            s in table && table[s] == Placeholder.Label(|set t | t in before| + 1)
    decreases |after|
  {
    var texts := before + [s] + after;
    if after == [] {
      NumberingIsNumbered(before);
      assert texts[..|texts| - 1] == before;
      assert |NumberingOf(before)| == |NumberingOf(before).Keys|;
    } else {
      var n := |after| - 1;
      assert texts[..|texts| - 1] == before + [s] + after[..n];
      FirstUseDecides(before, s, after[..n]);
    }
  }

  /** Distinct rejected strings get distinct placeholders. */
  lemma PlaceholdersInjective(table: Table, s: string, t: string)
    requires Numbered(table) && s in table && t in table && table[s] == table[t]
    ensures s == t
  {
    var order :| NumberedBy(table, order);
    var i :| 0 <= i < |order| && order[i] == s;
    var j :| 0 <= j < |order| && order[j] == t;
    Placeholder.LabelInjective(i + 1, j + 1);
  }
}
