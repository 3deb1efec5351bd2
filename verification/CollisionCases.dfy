/** Identities that come together, and what decides whether they do: the order of the walk. */
module CollisionCases {
  import opened Json
  import opened Rewrite
  import opened ResultContract
  import opened Meaning
  import Placeholder

  // An acceptable result with two items.

  /** A result that completes two items, its manifest, and the same with one more field. */
  function TwoItemResult(first: string, second: string): Json {
    Obj([STATUS, Field("manifest", TwoItemManifest(first, second))])
  }

  const STATUS := Field("status", Str("complete"))

  function WithFieldLast(first: string, second: string, extra: Field): Json {
    Obj([STATUS, Field("manifest", TwoItemManifest(first, second)), extra])
  }

  function WithFieldFirst(first: string, second: string, extra: Field): Json {
    Obj([extra, STATUS, Field("manifest", TwoItemManifest(first, second))])
  }

  function TwoItemManifest(first: string, second: string): Json {
    Obj([Field("schema_version", Str(MANIFEST_SCHEMA)), Field("operation", Str("review")),
         Field("terminal_state", Str("complete")),
         Field("coverage", TwoItemCoverageJson(first, second))])
  }

  function TwoItemCoverageJson(first: string, second: string): Json {
    var items := Arr([Record(first), Record(second)]);
    Obj([Field("selected", items), Field("completed", items), Field("reused", Arr([])), Field("failed", Arr([])),
         Field("waived", Arr([]))])
  }

  function Record(id: string): Json { Obj([Field("item_id", Str(id))]) }

  lemma TwoItemCoverage(first: string, second: string)
    requires ValidId(first) && ValidId(second) && first != second
    ensures var m := TwoItemManifest(first, second);
            && CoverageOf(m).Some?
            && var c := CoverageOf(m).value;
               && ValidArrays(c) && Partitioned(c) && ExplainedRecords(c)
               && IdSet(c.selected) == {first, second} && IdSet(c.failed) == {}
  {
    var m := TwoItemManifest(first, second);
    FindUnique(m.fields, 3);
    var coverage := Get(m, "coverage").value;
    forall k | 0 <= k < 5 ensures Find(coverage.fields, coverage.fields[k].key) == Some(coverage.fields[k].value) {
      FindUnique(coverage.fields, k);
    }
    var c := CoverageOf(m).value;
    assert c.selected == Some(coverage.fields[0].value) && c.completed == Some(coverage.fields[1].value);
    assert c.reused == Some(coverage.fields[2].value) && c.failed == Some(coverage.fields[3].value);
    assert c.waived == Some(coverage.fields[4].value);
    var items := c.selected.value.items;
    FindUnique(items[0].fields, 0);
    FindUnique(items[1].fields, 0);
    assert IdOf(items[0]) == first && IdOf(items[1]) == second;
    assert IdsOf(items) == [first, second];
    assert IdSet(c.selected) == {first, second} by {
      assert IdOf(items[0]) in IdSet(c.selected) && IdOf(items[1]) in IdSet(c.selected);
    }
  }

  /** Any result around this manifest is acceptable and selects the two items. */
  lemma TwoItemAccepted(payload: Json, first: string, second: string)
    requires ValidId(first) && ValidId(second) && first != second && payload.Obj?
    requires Get(payload, "status") == Some(Str("complete")) && Get(payload, "summary") == None
    requires Get(payload, "manifest") == Some(TwoItemManifest(first, second))
    ensures ParseOutcome(payload).Ok? && SelectedIds(payload) == {first, second}
    ensures StatusOf(payload) == Ok("complete") && BudgetExceeded(payload) == Ok(false)
  {
    TwoItemCoverage(first, second);
    var m := TwoItemManifest(first, second);
    FindUnique(m.fields, 0);
    FindUnique(m.fields, 1);
    FindUnique(m.fields, 2);
    FindMissing(m.fields, "run_failure");
  }

  // Two rejected texts, neither of them part of the contract.

  const SECRET := "token-1"
  const OTHER_SECRET := "token-2"

  /** Rejects the two secrets and nothing else. */
  function RejectSecrets(): Admission {
    (s: string) => if s == SECRET || s == OTHER_SECRET then Rejected("secret") else Admitted
  }

  lemma SecretsStart(s: string)
    ensures RejectSecrets()(s).Rejected? ==> |s| > 2 && s[0] == 't' && s[1] == 'o'
    ensures RejectSecrets()(s).Rejected? <==> s == SECRET || s == OTHER_SECRET
  {
  }

  lemma ContractIsAdmitted(s: string)
    requires s in CONTRACT_KEYS || ContractWord(s)
    ensures RejectSecrets()(s).Admitted?
  {
    hide RejectSecrets;
    SecretsStart(s);
    ContractStart(s);
  }

  lemma ContractStart(s: string)
    ensures |s| > 2 && s[0] == 't' && s[1] == 'o' ==> s !in CONTRACT_KEYS && !ContractWord(s)
  {
  }

  /** When the whole vocabulary of the contract stands, every acceptable result is readable. */
  lemma VocabularyIsEnough(payload: Json, check: Admission, ok: Words)
    requires payload.Obj? && ParseOutcome(payload).Ok?
    requires (forall k | k in CONTRACT_KEYS :: Reads(check, k)) && (forall w | ContractWord(w) :: ok(w))
    ensures Readable(payload, check, ok)
  {
    hide Partitioned, DerivedState, BudgetFailure, ValidCoverage, ManifestOutcome, LegacyKind, ManifestKind;
    StatusIsWord(payload);
  }

  // The order in which the walk meets the secrets.

  lemma {:induction false} NoOwnTexts(v: Json, path: Path, n: nat, check: Admission)
    requires v.Container() && n <= Width(v)
    requires forall i | 0 <= i < n :: !MustReplace(ChildAt(v, i), path + [StepAt(v, i)], check)
    ensures OwnTexts(v, path, n, check) == []
  {
    hide MustReplace, Survives;
    if n > 0 { NoOwnTexts(v, path, n - 1, check); }
  }

  lemma LaterStep(v: Json, path: Path, n: nat, check: Admission)
    requires v.Container() && 0 < n <= Width(v)
    ensures LaterTexts(v, path, 0, check) == []
    ensures var child, at := ChildAt(v, n - 1), path + [StepAt(v, n - 1)];
            LaterTexts(v, path, n, check) ==
            (if child.Container() && Survives(at, check) then WalkTexts(child, at, check) else [])
            + LaterTexts(v, path, n - 1, check)
  {
    hide WalkTexts, Survives;
    OrderStep(v, path, n, check);
  }

  lemma WalkOf(v: Json, path: Path, check: Admission)
    requires v.Container()
    ensures WalkTexts(v, path, check) == OwnTexts(v, path, Width(v), check) + LaterTexts(v, path, Width(v), check)
  {
    hide OwnTexts, LaterTexts;
  }

  /** Keys of the contract and list positions survive, below the manifest and at the top. */
  lemma StepSurvives(path: Path, step: Step)
    requires step.Index? || step.name in CONTRACT_KEYS
    ensures Survives(path + [step], RejectSecrets())
  {
    hide RejectSecrets, IsSink, IsToolLabel;
    if step.Key? {
      ContractKeysArePublic(step.name);
      ContractIsAdmitted(step.name);
    }
  }

  /** The path of a record of one of the five coverage arrays. */
  function RecordPath(field: string, i: nat): Path { COVERAGE_PATH + [Key(field)] + [Index(i)] }

  lemma RecordTexts(id: string, field: string, i: nat)
    ensures WalkTexts(Record(id), RecordPath(field, i), RejectSecrets())
            == if RejectSecrets()(id).Rejected? then [id] else []
  {
    hide RejectSecrets, Survives, IsSink, IsToolLabel;
    var v, path := Record(id), RecordPath(field, i);
    StepSurvives(path, Key("item_id"));
    OrdinaryBelow(path + [Key("item_id")]);
    LaterStep(v, path, 1, RejectSecrets());
    OneOwnText(v, path, RejectSecrets());
    WalkOf(v, path, RejectSecrets());
  }

  lemma OneOwnText(v: Json, path: Path, check: Admission)
    requires v.Container() && Width(v) == 1
    ensures var child, at := ChildAt(v, 0), path + [StepAt(v, 0)];
            OwnTexts(v, path, 1, check) ==
            if Survives(at, check) && MustReplace(child, at, check) then [child.text] else []
  {
    hide Survives, MustReplace;
    assert OwnTexts(v, path, 0, check) == [];
  }

  lemma NoTexts(v: Json, path: Path, check: Admission)
    requires v == Arr([])
    ensures WalkTexts(v, path, check) == []
  {
  }

  /** The two records, the second of which holds the placeholder. */
  lemma ItemsTexts(mark: string, field: string)
    requires RejectSecrets()(mark).Admitted?
    ensures WalkTexts(Arr([Record(SECRET), Record(mark)]), COVERAGE_PATH + [Key(field)], RejectSecrets()) == [SECRET]
  {
    hide RejectSecrets, Survives, WalkTexts, OwnTexts, LaterTexts;
    var v, path, check := Arr([Record(SECRET), Record(mark)]), COVERAGE_PATH + [Key(field)], RejectSecrets();
    SecretsStart(SECRET);
    StepSurvives(path, Index(0));
    StepSurvives(path, Index(1));
    RecordTexts(SECRET, field, 0);
    RecordTexts(mark, field, 1);
    LaterStep(v, path, 1, check);
    LaterStep(v, path, 2, check);
    NoOwnTexts(v, path, 2, check);
    WalkOf(v, path, check);
  }

  lemma CoverageTexts(mark: string)
    requires RejectSecrets()(mark).Admitted?
    ensures WalkTexts(TwoItemCoverageJson(SECRET, mark), COVERAGE_PATH, RejectSecrets()) == [SECRET, SECRET]
  {
    hide RejectSecrets, Survives, WalkTexts, OwnTexts, LaterTexts;
    var v, path, check := TwoItemCoverageJson(SECRET, mark), COVERAGE_PATH, RejectSecrets();
    StepSurvives(path, Key("selected"));
    StepSurvives(path, Key("completed"));
    ItemsTexts(mark, "selected");
    ItemsTexts(mark, "completed");
    NoTexts(Arr([]), path + [Key("reused")], check);
    NoTexts(Arr([]), path + [Key("failed")], check);
    NoTexts(Arr([]), path + [Key("waived")], check);
    LaterStep(v, path, 1, check);
    LaterStep(v, path, 2, check);
    LaterStep(v, path, 3, check);
    LaterStep(v, path, 4, check);
    LaterStep(v, path, 5, check);
    NoOwnTexts(v, path, 5, check);
    WalkOf(v, path, check);
  }

  /** An admitted text needs no placeholder. */
  lemma AdmittedStays(word: string, path: Path)
    requires ContractWord(word)
    ensures !MustReplace(Str(word), path, RejectSecrets())
  {
    ContractIsAdmitted(word);
  }

  lemma HeaderWords()
    ensures ContractWord(MANIFEST_SCHEMA) && ContractWord("review") && ContractWord("complete")
    ensures "coverage" in CONTRACT_KEYS
  {
  }

  lemma ManifestTexts(mark: string)
    requires RejectSecrets()(mark).Admitted?
    ensures TwoItemCoverageJson(SECRET, mark).Container()
    ensures WalkTexts(TwoItemManifest(SECRET, mark), MANIFEST_PATH, RejectSecrets()) == [SECRET, SECRET]
  {
    hide RejectSecrets, Survives, WalkTexts, OwnTexts, LaterTexts, TwoItemCoverageJson, MustReplace, ContractWord;
    var v, path, check := TwoItemManifest(SECRET, mark), MANIFEST_PATH, RejectSecrets();
    HeaderWords();
    StepSurvives(path, Key("coverage"));
    assert path + [Key("coverage")] == COVERAGE_PATH;
    CoverageTexts(mark);
    CoverageIsObject(mark);
    LaterStep(v, path, 1, check);
    LaterStep(v, path, 2, check);
    LaterStep(v, path, 3, check);
    LaterStep(v, path, 4, check);
    NoHeaderReplaced(mark);
    WalkOf(v, path, check);
  }

  lemma NoHeaderReplaced(mark: string)
    ensures OwnTexts(TwoItemManifest(SECRET, mark), MANIFEST_PATH, 4, RejectSecrets()) == []
  {
    hide RejectSecrets, OwnTexts, MustReplace, ContractWord, TwoItemCoverageJson;
    var v, path, check := TwoItemManifest(SECRET, mark), MANIFEST_PATH, RejectSecrets();
    HeaderWords();
    CoverageIsObject(mark);
    AdmittedStays(MANIFEST_SCHEMA, path + [Key("schema_version")]);
    AdmittedStays("review", path + [Key("operation")]);
    AdmittedStays("complete", path + [Key("terminal_state")]);
    NoContainerReplaced(TwoItemCoverageJson(SECRET, mark), path + [Key("coverage")], check);
    NoOwnTexts(v, path, 4, check);
  }

  lemma CoverageIsObject(mark: string)
    ensures TwoItemCoverageJson(SECRET, mark).Obj?
  {
  }

  lemma NoContainerReplaced(v: Json, path: Path, check: Admission)
    requires v.Container()
    ensures !MustReplace(v, path, check)
  {
  }

  const EXTRA := Field("extra", Obj([Field("note", Str(OTHER_SECRET))]))

  lemma ExtraTexts()
    ensures Survives([] + [Key("extra")], RejectSecrets())
    ensures WalkTexts(EXTRA.value, [] + [Key("extra")], RejectSecrets()) == [OTHER_SECRET]
  {
    hide RejectSecrets;
    var path: Path := [] + [Key("extra")];
    SecretsStart("extra");
    SecretsStart("note");
    SecretsStart(OTHER_SECRET);
    assert "extra"[0] == 'e' && "note"[0] == 'n';
    LaterStep(EXTRA.value, path, 1, RejectSecrets());
    OneOwnText(EXTRA.value, path, RejectSecrets());
    WalkOf(EXTRA.value, path, RejectSecrets());
  }

  // The whole payloads. The second identity is the first placeholder.

  const MARK := Placeholder.Label(1)
  const PLAIN := TwoItemResult(SECRET, MARK)
  const EXTRA_LAST := WithFieldLast(SECRET, MARK, EXTRA)
  const EXTRA_FIRST := WithFieldFirst(SECRET, MARK, EXTRA)

  lemma MarkIsAdmitted()
    ensures RejectSecrets()(MARK).Admitted? && ValidId(MARK) && ValidId(SECRET) && MARK != SECRET
  {
    LabelIsSafe(1);
    assert MARK[0] == Placeholder.PREFIX[0];
    SecretsStart(MARK);
  }

  /** Top-level parts: the status and the manifest add nothing and two secrets. */
  lemma TopParts()
    ensures !MustReplace(STATUS.value, [] + [Key("status")], RejectSecrets())
    ensures Survives([] + [Key("manifest")], RejectSecrets()) && TwoItemManifest(SECRET, MARK).Container()
    ensures WalkTexts(TwoItemManifest(SECRET, MARK), [] + [Key("manifest")], RejectSecrets()) == [SECRET, SECRET]
    ensures !MustReplace(TwoItemManifest(SECRET, MARK), [] + [Key("manifest")], RejectSecrets())
    ensures !MustReplace(EXTRA.value, [] + [Key("extra")], RejectSecrets())
  {
    hide RejectSecrets, Survives, WalkTexts, MustReplace;
    MarkIsAdmitted();
    AdmittedStays("complete", [] + [Key("status")]);
    StepSurvives([], Key("manifest"));
    assert [] + [Key("manifest")] == MANIFEST_PATH;
    ManifestTexts(MARK);
    NoContainerReplaced(TwoItemManifest(SECRET, MARK), [] + [Key("manifest")], RejectSecrets());
    NoContainerReplaced(EXTRA.value, [] + [Key("extra")], RejectSecrets());
  }

  lemma PlainOrder()
    ensures WalkTexts(PLAIN, [], RejectSecrets()) == [SECRET, SECRET]
  {
    hide RejectSecrets, Survives, WalkTexts, OwnTexts, LaterTexts, MustReplace, TwoItemManifest;
    TopParts();
    LaterStep(PLAIN, [], 1, RejectSecrets());
    LaterStep(PLAIN, [], 2, RejectSecrets());
    NoOwnTexts(PLAIN, [], 2, RejectSecrets());
    WalkOf(PLAIN, [], RejectSecrets());
  }

  /** The last container is walked first. */
  lemma ExtraLastOrder()
    ensures WalkTexts(EXTRA_LAST, [], RejectSecrets()) == [OTHER_SECRET, SECRET, SECRET]
  {
    hide RejectSecrets, Survives, WalkTexts, OwnTexts, LaterTexts, MustReplace, TwoItemManifest;
    TopParts();
    ExtraTexts();
    LaterStep(EXTRA_LAST, [], 1, RejectSecrets());
    LaterStep(EXTRA_LAST, [], 2, RejectSecrets());
    LaterStep(EXTRA_LAST, [], 3, RejectSecrets());
    NoOwnTexts(EXTRA_LAST, [], 3, RejectSecrets());
    WalkOf(EXTRA_LAST, [], RejectSecrets());
  }

  lemma ExtraFirstOrder()
    ensures WalkTexts(EXTRA_FIRST, [], RejectSecrets()) == [SECRET, SECRET, OTHER_SECRET]
  {
    hide RejectSecrets, Survives, WalkTexts, OwnTexts, LaterTexts, MustReplace, TwoItemManifest;
    TopParts();
    ExtraTexts();
    LaterStep(EXTRA_FIRST, [], 1, RejectSecrets());
    LaterStep(EXTRA_FIRST, [], 2, RejectSecrets());
    LaterStep(EXTRA_FIRST, [], 3, RejectSecrets());
    NoOwnTexts(EXTRA_FIRST, [], 3, RejectSecrets());
    WalkOf(EXTRA_FIRST, [], RejectSecrets());
  }

  /** The tables that the three walks leave. */
  lemma TablesLeft()
    ensures SECRET != OTHER_SECRET && LeftTable(PLAIN, RejectSecrets()) == map[SECRET := MARK]
    ensures LeftTable(EXTRA_FIRST, RejectSecrets()) == map[SECRET := MARK, OTHER_SECRET := Placeholder.Label(2)]
    ensures LeftTable(EXTRA_LAST, RejectSecrets()) == map[OTHER_SECRET := MARK, SECRET := Placeholder.Label(2)]
  {
    hide WalkTexts, NumberingOf, Placeholder.Label, RejectSecrets;
    PlainOrder();
    ExtraFirstOrder();
    ExtraLastOrder();
    assert SECRET[6] == '1' && OTHER_SECRET[6] == '2';
    FirstTwice(SECRET, OTHER_SECRET);
    SecondTwice(OTHER_SECRET, SECRET);
  }

  lemma FirstTwice(a: string, b: string)
    requires a != b
    ensures NumberingOf([a, a]) == map[a := MARK]
    ensures NumberingOf([a, a, b]) == map[a := MARK, b := Placeholder.Label(2)]
  {
    hide NumberingOf, Placeholder.Label;
    NumberingSnoc([], a);
    NumberingSnoc([a], a);
    NumberingSnoc([a, a], b);
    assert [] + [a] == [a] && [a] + [a] == [a, a] && [a, a] + [b] == [a, a, b];
  }

  lemma SecondTwice(a: string, b: string)
    requires a != b
    ensures NumberingOf([a, b, b]) == map[a := MARK, b := Placeholder.Label(2)]
  {
    hide NumberingOf, Placeholder.Label;
    NumberingSnoc([], a);
    NumberingSnoc([a], b);
    NumberingSnoc([a, b], b);
    assert [] + [a] == [a] && [a] + [b] == [a, b] && [a, b] + [b] == [a, b, b];
  }

  // What becomes of them.

  /** All three are acceptable, and all three stay readable. */
  lemma AllAcceptable(payload: Json, table: Table)
    requires payload in {PLAIN, EXTRA_LAST, EXTRA_FIRST}
    ensures payload.Obj? && ParseOutcome(payload).Ok? && SelectedIds(payload) == {SECRET, MARK}
    ensures Readable(payload, RejectSecrets(), KeptWords(RejectSecrets(), table))
    ensures StatusOf(payload) == Ok("complete") && BudgetExceeded(payload) == Ok(false)
    ensures GetOrNull(payload, "manifest") != Null
  {
    hide RejectSecrets, TwoItemManifest, ParseOutcome, Readable, SelectedIds, StatusOf, BudgetExceeded;
    TopFields(payload);
    MarkIsAdmitted();
    TwoItemAccepted(payload, SECRET, MARK);
    forall k | k in CONTRACT_KEYS ensures Reads(RejectSecrets(), k) { ContractIsAdmitted(k); }
    forall w | ContractWord(w) ensures KeptWords(RejectSecrets(), table)(w) { ContractIsAdmitted(w); }
    VocabularyIsEnough(payload, RejectSecrets(), KeptWords(RejectSecrets(), table));
  }

  lemma TopFields(payload: Json)
    requires payload in {PLAIN, EXTRA_LAST, EXTRA_FIRST}
    ensures payload.Obj? && Get(payload, "status") == Some(Str("complete")) && Get(payload, "summary") == None
    ensures Get(payload, "manifest") == Some(TwoItemManifest(SECRET, MARK)) && TwoItemManifest(SECRET, MARK).Obj?
  {
    forall k | 0 <= k < |payload.fields|
      ensures Find(payload.fields, payload.fields[k].key) == Some(payload.fields[k].value)
    {
      FindUnique(payload.fields, k);
    }
    FindMissing(payload.fields, "summary");
    var i := if payload == EXTRA_FIRST then 1 else 0;
    assert payload.fields[i].key == "status" && payload.fields[i + 1].key == "manifest";
  }

  /** The placeholder of the secret identity is the other identity: the result is refused. */
  lemma Collides(payload: Json)
    requires payload in {PLAIN, EXTRA_LAST, EXTRA_FIRST}
    requires var table := LeftTable(payload, RejectSecrets());
             |table| <= 2 && SECRET in table && table[SECRET] == MARK
    ensures var p' := Rewritten(payload, [], RejectSecrets(), LeftTable(payload, RejectSecrets()));
            ParseOutcome(payload).Ok? && p'.Obj? && ParseOutcome(p').Err?
  {
    hide RejectSecrets, TwoItemManifest, ParseOutcome, Readable, SelectedIds, StatusOf, BudgetExceeded, Rewritten;
    hide WalkTexts, NumberingOf, Numbered, StatusReadable, BudgetReadable, LeftTable;
    var check, table := RejectSecrets(), LeftTable(payload, RejectSecrets());
    SettingOf(payload);
    AllAcceptable(payload, table);
    MarkIsAdmitted();
    SecretsStart(SECRET);
    assert Renamed(SECRET, check, table) == Renamed(MARK, check, table);
    SanitisingKeepsMeaning(payload, check, table);
    ReadableParts(payload, check, KeptWords(check, table));
    RefusedOrKept(payload, check, table);
  }

  lemma SettingOf(payload: Json)
    requires payload.Container() && |LeftTable(payload, RejectSecrets())| <= 2
    ensures Setting(LeftTable(payload, RejectSecrets()))
  {
    hide WalkTexts, NumberingOf, Numbered, RejectSecrets;
    NumberingIsNumbered(WalkTexts(payload, [], RejectSecrets()));
  }

  lemma ReadableParts(payload: Json, check: Admission, ok: Words)
    requires payload.Obj? && ParseOutcome(payload).Ok? && Readable(payload, check, ok)
    ensures StatusOf(payload).Ok? && BudgetExceeded(payload).Ok?
    ensures StatusReadable(payload, check, ok) && BudgetReadable(payload, check)
    ensures GetOrNull(payload, "manifest") != Null ==> Reads(check, "manifest")
  {
    StatusIsWord(payload);
  }

  /** Without a further field the result is refused after sanitising. */
  lemma CollisionLosesTheResult()
    ensures var p' := Rewritten(PLAIN, [], RejectSecrets(), LeftTable(PLAIN, RejectSecrets()));
            ParseOutcome(PLAIN).Ok? && p'.Obj? && ParseOutcome(p').Err?
  {
    hide *;
    TablesLeft();
    Collides(PLAIN);
  }

  /** The same with another secret in a field in front, which the walk takes up last. */
  lemma ExtraFirstLosesTheResult()
    ensures var p' := Rewritten(EXTRA_FIRST, [], RejectSecrets(), LeftTable(EXTRA_FIRST, RejectSecrets()));
            ParseOutcome(EXTRA_FIRST).Ok? && p'.Obj? && ParseOutcome(p').Err?
  {
    hide *;
    TablesLeft();
    Collides(EXTRA_FIRST);
  }

  /** With the same field behind the manifest the other secret takes the first placeholder, and
      the result keeps its meaning. */
  lemma ExtraLastKeepsTheResult()
    ensures var table := LeftTable(EXTRA_LAST, RejectSecrets());
            var p' := Rewritten(EXTRA_LAST, [], RejectSecrets(), table);
            && ParseOutcome(EXTRA_LAST).Ok? && p'.Obj?
            && ParseOutcome(p') == Ok(RenamedOutcome(ParseOutcome(EXTRA_LAST).value, RejectSecrets(), table))
  {
    hide RejectSecrets, TwoItemManifest, ParseOutcome, Readable, SelectedIds, Rewritten, RenamedOutcome;
    hide WalkTexts, NumberingOf, Numbered, LeftTable, Placeholder.Label, Renamed, RenamesApart, Setting, SECRET, MARK;
    var check, table := RejectSecrets(), LeftTable(EXTRA_LAST, RejectSecrets());
    TablesLeft();
    KeptApart(table);
    SettingOf(EXTRA_LAST);
    AllAcceptable(EXTRA_LAST, table);
    SanitisingKeepsMeaning(EXTRA_LAST, check, table);
  }

  lemma KeptApart(table: Table)
    requires SECRET != OTHER_SECRET && table == map[OTHER_SECRET := MARK, SECRET := Placeholder.Label(2)]
    ensures |table| <= 2 && RenamesApart({SECRET, MARK}, RejectSecrets(), table)
  {
    hide RejectSecrets, Placeholder.Label;
    MarkIsAdmitted();
    SecretsStart(SECRET);
    if Placeholder.Label(1) == Placeholder.Label(2) { Placeholder.LabelInjective(1, 2); }
    assert Renamed(SECRET, RejectSecrets(), table) == Placeholder.Label(2);
    assert Renamed(MARK, RejectSecrets(), table) == MARK;
  }
}
