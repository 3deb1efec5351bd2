/** The walk and the contract together: what the result that the sanitiser leaves behind means. */
module SanitisedResult {
  import opened Json
  import opened Rewrite
  import opened RewriteLaws
  import opened ResultContract
  import opened Meaning
  import Placeholder
  import Sanitizer

  function AdmittedWords(check: Admission): Words { (w: string) => check(w).Admitted? }

  /** The table numbers all replaced texts, in some order. */
  ghost predicate Covers(payload: Json, check: Admission, table: Table)
    requires payload.Container()
  {
    Numbered(table) && table.Keys == TreeTally(payload, [], check).replaced
  }

  /** Under a table of the replaced texts a word that the contract reads is kept exactly when admitted. */
  lemma WordAgrees(payload: Json, steps: Path, word: string, check: Admission, table: Table)
    requires payload.Obj? && Covers(payload, check, table) && steps != [] && KeysSurvive([], steps, check)
    requires At(payload, steps) == Some(Str(word)) && !IsSink(steps)
    ensures Kept(word, check, table) <==> check(word).Admitted?
  {
    hide TreeTally, IsSink;
    assert [] + steps == steps;
    if check(word).Rejected? { WalkReplaces(payload, [], steps, check, word); }
  }

  /** A path of admitted contract keys and list positions survives. */
  lemma {:induction false} KeysRead(base: Path, steps: Path, check: Admission)
    requires forall k | 0 <= k < |steps| && steps[k].Key? ::
             steps[k].name in CONTRACT_KEYS && Reads(check, steps[k].name)
    ensures KeysSurvive(base, steps, check)
    decreases |steps|
  {
    if steps != [] {
      if steps[0].Key? { ContractKeysArePublic(steps[0].name); }
      assert forall k | 0 <= k < |steps[1..]| :: steps[1..][k] == steps[k + 1];
      KeysRead(base + [steps[0]], steps[1..], check);
    }
  }

  lemma At1(v: Json, k: string)
    requires v.Obj?
    ensures At(v, [Key(k)]) == Get(v, k)
  {
    if Get(v, k).Some? { assert At(Get(v, k).value, [Key(k)][1..]) == Get(v, k); }
  }

  lemma AtStep(v: Json, k: string, rest: Path)
    requires v.Obj? && Get(v, k).Some?
    ensures At(v, [Key(k)] + rest) == At(Get(v, k).value, rest)
  {
    assert ([Key(k)] + rest)[1..] == rest;
  }

  lemma AtItem(v: Json, i: nat, rest: Path)
    requires v.Arr? && i < |v.items|
    ensures At(v, [Index(i)] + rest) == At(v.items[i], rest)
  {
    assert ([Index(i)] + rest)[1..] == rest;
  }

  /** One word of the manifest. */
  lemma ManifestWord(payload: Json, m: Json, rest: Path, word: string, check: Admission, table: Table)
    requires payload.Obj? && Covers(payload, check, table) && Get(payload, "manifest") == Some(m)
    requires rest != [] && At(m, rest) == Some(Str(word)) && !IsSink([Key("manifest")] + rest)
    requires Reads(check, "manifest")
    requires forall k | 0 <= k < |rest| && rest[k].Key? :: rest[k].name in CONTRACT_KEYS && Reads(check, rest[k].name)
    ensures Kept(word, check, table) <==> check(word).Admitted?
  {
    hide Covers, IsSink;
    AtStep(payload, "manifest", rest);
    KeysRead([], [Key("manifest")] + rest, check);
    WordAgrees(payload, [Key("manifest")] + rest, word, check, table);
  }

  lemma HeaderAgrees(payload: Json, m: Json, status: string, check: Admission, table: Table)
    requires payload.Obj? && Covers(payload, check, table) && Get(payload, "manifest") == Some(m) && m.Obj?
    requires Get(m, "schema_version") == Some(Str(MANIFEST_SCHEMA))
    requires Get(m, "operation") == Some(Str("review")) && Get(m, "terminal_state") == Some(Str(status))
    requires Reads(check, "manifest")
    ensures HeaderReadable(status, check, KeptWords(check, table))
            <==> HeaderReadable(status, check, AdmittedWords(check))
  {
    hide Covers, IsSink, Kept;
    if Reads(check, "schema_version") && Reads(check, "operation") && Reads(check, "terminal_state") {
      At1(m, "schema_version");
      At1(m, "operation");
      At1(m, "terminal_state");
      ShortPaths("schema_version");
      ShortPaths("operation");
      ShortPaths("terminal_state");
      ManifestWord(payload, m, [Key("schema_version")], MANIFEST_SCHEMA, check, table);
      ManifestWord(payload, m, [Key("operation")], "review", check, table);
      ManifestWord(payload, m, [Key("terminal_state")], status, check, table);
    }
  }

  lemma ShortPaths(key: string)
    ensures !IsSink([Key("manifest")] + [Key(key)])
    ensures !IsSink([Key("manifest")] + [Key(key), Key("classification")])
  {
  }

  lemma ClassPath(i: nat)
    ensures !IsSink([Key("manifest")] + [Key("coverage"), Key("failed"), Index(i), Key("classification")])
  {
  }

  lemma FailuresAgree(payload: Json, m: Json, c: Coverage, check: Admission, table: Table)
    requires payload.Obj? && Covers(payload, check, table) && Get(payload, "manifest") == Some(m) && m.Obj?
    requires CoverageOf(m) == Some(c) && ValidArrays(c) && ExplainedRecords(c)
    requires Reads(check, "manifest") && CoverageRead(check)
    ensures FailuresReadable(c, check, KeptWords(check, table)) <==> FailuresReadable(c, check, AdmittedWords(check))
  {
    hide Covers, IsSink, Kept;
    var records := c.failed.value.items;
    if Reads(check, "classification") {
      forall i | 0 <= i < |records|
        ensures Kept(ClassOf(records[i]), check, table) <==> check(ClassOf(records[i])).Admitted?
      {
        ClassAgrees(payload, m, c, i, check, table);
      }
    } else if records != [] {
      var first := ClassOf(records[0]);
    }
  }

  lemma ClassAgrees(payload: Json, m: Json, c: Coverage, i: nat, check: Admission, table: Table)
    requires payload.Obj? && Covers(payload, check, table) && Get(payload, "manifest") == Some(m) && m.Obj?
    requires CoverageOf(m) == Some(c) && ValidArrays(c) && ExplainedRecords(c) && i < |c.failed.value.items|
    requires Reads(check, "manifest") && CoverageRead(check) && Reads(check, "classification")
    ensures var word := ClassOf(c.failed.value.items[i]);
            Kept(word, check, table) <==> check(word).Admitted?
  {
    hide Covers, IsSink, Kept;
    var record := c.failed.value.items[i];
    var rest := [Key("coverage"), Key("failed"), Index(i), Key("classification")];
    At1(record, "classification");
    AtItem(c.failed.value, i, [Key("classification")]);
    AtStep(Get(m, "coverage").value, "failed", [Index(i)] + [Key("classification")]);
    AtStep(m, "coverage", [Key("failed")] + ([Index(i)] + [Key("classification")]));
    assert rest == [Key("coverage")] + ([Key("failed")] + ([Index(i)] + [Key("classification")]));
    ClassPath(i);
    ManifestWord(payload, m, rest, ClassOf(record), check, table);
  }

  lemma RunFailureAgrees(payload: Json, m: Json, c: Coverage, budget: bool, check: Admission, table: Table)
    requires payload.Obj? && Covers(payload, check, table) && Get(payload, "manifest") == Some(m) && m.Obj?
    requires ValidArrays(c) && ExplainedRecords(c) && ValidRunFailure(GetOrNull(m, "run_failure"))
    requires Reads(check, "manifest")
    ensures var f := GetOrNull(m, "run_failure");
            RunFailureReadable(c, f, budget, check, KeptWords(check, table))
            <==> RunFailureReadable(c, f, budget, check, AdmittedWords(check))
  {
    hide Covers, IsSink, Kept, ValidArrays, ExplainedRecords, IdSet;
    var f := GetOrNull(m, "run_failure");
    if f != Null && Reads(check, "run_failure") && Reads(check, "classification") {
      At1(f, "classification");
      AtStep(m, "run_failure", [Key("classification")]);
      assert [Key("run_failure")] + [Key("classification")] == [Key("run_failure"), Key("classification")];
      ShortPaths("run_failure");
      ManifestWord(payload, m, [Key("run_failure"), Key("classification")],
                   Get(f, "classification").value.text, check, table);
    }
  }

  lemma StatusAgrees(payload: Json, check: Admission, table: Table)
    requires payload.Obj? && Covers(payload, check, table) && StatusOf(payload).Ok?
    ensures StatusReadable(payload, check, KeptWords(check, table))
            <==> StatusReadable(payload, check, AdmittedWords(check))
  {
    hide Covers, Kept;
    if Get(payload, "status").Some? && Reads(check, "status") {
      At1(payload, "status");
      KeysRead([], [Key("status")], check);
      WordAgrees(payload, [Key("status")], StatusOf(payload).value, check, table);
    }
  }

  /** Under such a table the first half of the condition can be told from the payload and the check alone. */
  lemma ReadableAgrees(payload: Json, check: Admission, table: Table)
    requires payload.Obj? && Covers(payload, check, table) && ParseOutcome(payload).Ok?
    ensures Readable(payload, check, KeptWords(check, table)) <==> Readable(payload, check, AdmittedWords(check))
  {
    hide Covers, StatusReadable, BudgetReadable, FailuresReadable, WaiversReadable, RunFailureReadable, HeaderReadable;
    hide CoverageRead, Reads, IdSet, ValidArrays, ExplainedRecords, Partitioned, DerivedState, BudgetFailure;
    StatusAgrees(payload, check, table);
    var m := GetOrNull(payload, "manifest");
    if m != Null && Reads(check, "manifest") {
      var c := CoverageOf(m).value;
      HeaderAgrees(payload, m, StatusOf(payload).value, check, table);
      if CoverageRead(check) { FailuresAgree(payload, m, c, check, table); }
      RunFailureAgrees(payload, m, c, BudgetExceeded(payload).value, check, table);
    }
  }

  /** What the walk does to the meaning of an acceptable result: it is kept exactly when the keys
      and words it is read from are admitted, and the identities stay apart when renamed by the
      numbering in walk order. Both halves are functions of payload and check. The size bound is
      the bound on the result file. */
  lemma WalkKeepsMeaning(payload: Json, check: Admission)
    requires payload.Obj? && ParseOutcome(payload).Ok? && Size(payload) <= MAX_RESULT_BYTES_HARD_LIMIT
    ensures var table := LeftTable(payload, check);
            && Rewritten(payload, [], check, table).Obj?
            && (ParseOutcome(Rewritten(payload, [], check, table)) ==
                Ok(RenamedOutcome(ParseOutcome(payload).value, check, table))
                <==> Readable(payload, check, AdmittedWords(check))
                     && RenamesApart(SelectedIds(payload), check, table))
  {
    hide Readable, ParseOutcome, Rewritten, RenamesApart, TreeTally, Size, LeftTable, Numbered;
    LeftTableExact(payload, check);
    TableBounded(payload, check, LeftTable(payload, check));
    SanitisingKeepsMeaning(payload, check, LeftTable(payload, check));
    ReadableAgrees(payload, check, LeftTable(payload, check));
  }

  /** The sanitiser, and what its output means. */
  method SanitiseResult(payload: Json, check: Admission)
    returns (root: Sanitizer.Node, ghost nodes: set<Sanitizer.Node>, table: Table)
    requires payload.Obj? && UniqueKeys(payload) && Size(payload) <= MAX_RESULT_BYTES_HARD_LIMIT
    ensures fresh(nodes) && root in nodes && Sanitizer.Linked(nodes)
    ensures table == LeftTable(payload, check) && Sanitizer.Denote(root, nodes).Obj?
    ensures ParseOutcome(payload).Ok? ==>
              (ParseOutcome(Sanitizer.Denote(root, nodes)) ==
               Ok(RenamedOutcome(ParseOutcome(payload).value, check, LeftTable(payload, check)))
               <==> Readable(payload, check, AdmittedWords(check))
                    && RenamesApart(SelectedIds(payload), check, LeftTable(payload, check)))
  {
    hide Readable, ParseOutcome, RenamesApart, TreeTally, Size, Sanitizer.Denote, LeftTable;
    var reasons, redacted;
    root, nodes, reasons, redacted, table := Sanitizer.Sanitize(payload, check);
    if ParseOutcome(payload).Ok? { WalkKeepsMeaning(payload, check); }
  }

  // Where the meaning is lost.

  function RejectOnly(text: string): Admission {
    (s: string) => if s == text then Rejected("forbidden") else Admitted
  }

  /** A rejected `status` key turns a warning into a clean result: no identity is involved. */
  lemma UnreadStatusLosesTheWarning(table: Table)
    requires Numbered(table)
    ensures var payload := Obj([Field("status", Str("completed_with_warnings"))]);
            var p' := Rewritten(payload, [], RejectOnly("status"), table);
            && ParseOutcome(payload).Ok? && ParseOutcome(payload).value.kind == Warning
            && p'.Obj? && ParseOutcome(p').Ok? && ParseOutcome(p').value.kind == Clean
  {
    hide Rewritten, BudgetExceeded, Ordinary, BudgetReadable, IsSink, IsToolLabel;
    var payload := Obj([Field("status", Str("completed_with_warnings"))]);
    var check := RejectOnly("status");
    FindUnique(payload.fields, 0);
    FindMissing(payload.fields, "manifest");
    NoSummaryNoBudget(payload);
    assert check("summary").Admitted? && check("status").Rejected?;
    StatusIsOrdinary();
    ReadKey(payload, [], "status", check, table);
    BudgetRead(payload, check, table);
    NoBudgetReadable(payload, check);
    ManifestRead(payload, check, table);
  }

  lemma NoSummaryNoBudget(payload: Json)
    requires payload == Obj([Field("status", Str("completed_with_warnings"))])
    ensures BudgetExceeded(payload) == Ok(false)
  {
    FindMissing(payload.fields, "summary");
  }

  lemma NoBudgetReadable(payload: Json, check: Admission)
    requires payload.Obj? && BudgetExceeded(payload) == Ok(false)
    ensures BudgetReadable(payload, check)
  {
  }

  /** A rejected `summary` key always reads as a budget that was not exceeded. */
  lemma UnreadSummaryHidesTheBudget(payload: Json, check: Admission, table: Table)
    requires payload.Obj? && BudgetExceeded(payload).Ok? && check("summary").Rejected?
    ensures Rewritten(payload, [], check, table).Obj?
    ensures BudgetExceeded(Rewritten(payload, [], check, table)) == Ok(false)
  {
    BudgetRead(payload, check, table);
  }
}
