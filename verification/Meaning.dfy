/** Sanitising keeps the meaning of a result: item identities are renamed consistently, and
    everything the outcome is computed from stays what it was. */
module Meaning {
  import opened Json
  import opened Collections
  import opened PyText
  import opened Rewrite
  import opened RewriteLaws
  import opened ResultContract
  import Placeholder

  /** The object keys the outcome is read from. */
  const CONTRACT_KEYS := {
    "status", "summary", "budget_exceeded", "manifest", "schema_version", "operation",
    "terminal_state", "coverage", "selected", "completed", "reused", "failed", "waived", "item_id",
    "classification", "reason", "run_failure"
  }

  /** The closed string values the outcome is read from. */
  predicate ContractWord(w: string) {
    || w == MANIFEST_SCHEMA || w == "review" || w == "success" || ManifestKind(w).Some? || LegacyKind(w).Some?
    || w in FAILURE_CLASSES || w in RUN_FAILURE_CLASSES
  }

  /** The admission check lets this key through. */
  predicate Reads(check: Admission, key: string) { check(key).Admitted? }

  /** What sanitising makes of an item identity. */
  function Renamed(id: string, check: Admission, table: Table): string {
    if check(id).Rejected? && id in table then table[id] else id
  }

  ghost predicate RenamesApart(ids: set<string>, check: Admission, table: Table) {
    forall s, t | s in ids && t in ids && Renamed(s, check, table) == Renamed(t, check, table) :: s == t
  }

  lemma ContractKeysArePublic(k: string)
    requires k in CONTRACT_KEYS
    ensures k !in PROVIDER_PRIVATE_RESULT_KEYS
  {
    match k
    case "status" => case "summary" => case "budget_exceeded" => case "manifest" =>
    case "schema_version" => case "operation" => case "terminal_state" => case "coverage" =>
    case "selected" => case "completed" => case "reused" => case "failed" => case "waived" =>
    case "item_id" => case "classification" => case "reason" => case "run_failure" =>
    case _ => assert false;
  }

  /** No key at this path is exempt from admission. */
  predicate Ordinary(path: Path) { !IsSink(path) && !IsToolLabel(path) }

  /** Reading a contract key after sanitising: the key is there exactly when it is admitted. */
  lemma ReadKey(v: Json, path: Path, key: string, check: Admission, table: Table)
    requires v.Obj? && key in CONTRACT_KEYS && Ordinary(path + [Key(key)])
    ensures Rewritten(v, path, check, table).Obj?
    ensures Get(Rewritten(v, path, check, table), key) ==
            if Reads(check, key) then OptionMap(Get(v, key), path + [Key(key)], check, table) else None
  {
    ContractKeysArePublic(key);
    GetRewritten(v, path, key, check, table);
  }

  /** A contract word after sanitising: it is still there exactly when its key is read and the
      word itself is not replaced. A placeholder is no contract word. */
  lemma ReadWord(v: Json, path: Path, key: string, word: string, check: Admission, table: Table)
    requires v.Obj? && key in CONTRACT_KEYS && Ordinary(path + [Key(key)]) && Numbered(table)
    requires Get(v, key) == Some(Str(word)) && ContractWord(word)
    ensures Rewritten(v, path, check, table).Obj?
    ensures var found := Get(Rewritten(v, path, check, table), key);
            && (found == Some(Str(word)) <==> Reads(check, key) && Kept(word, check, table))
            && (found == Some(Str(word)) || found == None
                || (found.value.Str? && !ContractWord(found.value.text) && Reads(check, key)))
            && (found == None <==> !Reads(check, key))
  {
    hide Rewritten, Ordinary, Numbered, ContractWord, Kept;
    ReadKey(v, path, key, check, table);
    WordLeaf(word, path + [Key(key)], check, table);
  }

  /** A word where nothing is exempt: kept, or replaced by something that is no word. */
  lemma WordLeaf(word: string, at: Path, check: Admission, table: Table)
    requires Ordinary(at) && Numbered(table) && ContractWord(word)
    ensures var found := Rewritten(Str(word), at, check, table);
            && found.Str? && (found.text == word <==> Kept(word, check, table))
            && (found.text == word || !ContractWord(found.text))
  {
    hide IsToolLabel, ContractWord;
    if !Kept(word, check, table) { PlaceholderIsNoWord(table, word); }
  }

  lemma PlaceholderIsNoWord(table: Table, s: string)
    requires Numbered(table) && s in table
    ensures !ContractWord(table[s])
  {
    hide ContractWord, Placeholder.Label;
    var order :| NumberedBy(table, order);
    var i :| 0 <= i < |order| && order[i] == s;
    LabelIsNoWord(i + 1);
  }

  /** The text is not replaced under this table. */
  predicate Kept(text: string, check: Admission, table: Table) {
    !(check(text).Rejected? && text in table)
  }

  lemma LabelIsNoWord(n: nat)
    ensures !ContractWord(Placeholder.Label(n))
  {
    hide Placeholder.ZeroPad, Placeholder.Decimal, ContractWord;
    var l := Placeholder.Label(n);
    assert l[0] == 'o' && l[3] == '-' && MANIFEST_SCHEMA[3] == '.';
    if ContractWord(l) { WordStart(l); }
  }

  lemma WordStart(w: string)
    requires ContractWord(w)
    ensures |w| < 4 || w[0] != 'o' || w == MANIFEST_SCHEMA
  {
    if |w| >= 4 && w[0] == 'o' { NoKind(w); }
  }

  lemma NoKind(w: string)
    requires |w| >= 4 && w[0] == 'o'
    ensures ManifestKind(w) == None && LegacyKind(w) == None && w !in FAILURE_CLASSES && w !in RUN_FAILURE_CLASSES
  {
  }

  predicate SafeText(s: string) {
    19 <= |s| <= 21 && forall i | 0 <= i < |s| :: !IsSpace(s[i])
  }

  lemma LabelIsSafe(n: nat)
    requires n <= MAX_RESULT_BYTES_HARD_LIMIT
    ensures SafeText(Placeholder.Label(n))
  {
    Placeholder.LabelLength(n);
    var text, digits := Placeholder.Label(n), Placeholder.ZeroPad(Placeholder.Decimal(n), 6);
    hide Placeholder.ZeroPad, Placeholder.Decimal;
    forall k | 0 <= k < |text| ensures !IsSpace(text[k]) {
      if k < |Placeholder.PREFIX| {
        assert text[k] == Placeholder.PREFIX[k];
      } else {
        assert text[k] == digits[k - |Placeholder.PREFIX|];
      }
    }
  }

  /** Placeholders are short and free of whitespace, so they are valid identities and waivers. */
  lemma PlaceholdersAreSafe(table: Table, s: string)
    requires Numbered(table) && |table| <= MAX_RESULT_BYTES_HARD_LIMIT && s in table
    ensures SafeText(table[s]) && ValidId(table[s]) && !Blank(table[s])
  {
    hide Placeholder.Label;
    var order :| NumberedBy(table, order);
    var i :| 0 <= i < |order| && order[i] == s;
    LabelIsSafe(i + 1);
    assert !IsSpace(table[s][0]);
  }

  /** A table as the walk leaves one for results within the size limit. */
  ghost predicate Setting(table: Table) {
    Numbered(table) && |table| <= MAX_RESULT_BYTES_HARD_LIMIT
  }

  const MANIFEST_PATH: Path := [Key("manifest")]
  const COVERAGE_PATH: Path := [Key("manifest"), Key("coverage")]

  /** Below the manifest only the path and the reason of a failed item are exempt. */
  lemma OrdinaryBelow(path: Path)
    requires |path| > 0 && path[0] == Key("manifest")
    requires |path| >= 5 && path[2] == Key("failed") ==> path[4] != Key("path") && path[4] != Key("reason")
    ensures Ordinary(path)
  {
  }

  /** A coverage record keeps its identity up to the renaming, if identities are read at all. */
  lemma RecordRenamed(record: Json, field: string, i: nat, check: Admission, table: Table)
    requires Setting(table) && Identified(record)
    ensures var record' := Rewritten(record, COVERAGE_PATH + [Key(field), Index(i)], check, table);
            && record'.Obj? && (Identified(record') <==> Reads(check, "item_id"))
            && (Identified(record') ==> IdOf(record') == Renamed(IdOf(record), check, table))
  {
    var path := COVERAGE_PATH + [Key(field), Index(i)];
    OrdinaryBelow(path + [Key("item_id")]);
    ReadKey(record, path, "item_id", check, table);
    var id := IdOf(record);
    if check(id).Rejected? && id in table {
      PlaceholdersAreSafe(table, id);
    }
  }

  predicate IdsRead(v: Json, check: Admission)
    requires v.Arr?
  {
    v.items == [] || Reads(check, "item_id")
  }

  function RenamedIds(ids: seq<string>, check: Admission, table: Table): (r: seq<string>)
    ensures |r| == |ids|
  {
    seq(|ids|, i requires 0 <= i < |ids| => Renamed(ids[i], check, table))
  }

  /** A coverage array keeps its records, with renamed identities; it stays valid exactly when
      the renaming keeps its identities apart. */
  lemma ArrayRenamed(v: Json, field: string, check: Admission, table: Table)
    requires Setting(table) && ValidCoverage(Some(v)) && IdsRead(v, check)
    ensures var v' := Rewritten(v, COVERAGE_PATH + [Key(field)], check, table);
            && v'.Arr? && |v'.items| == |v.items|
            && (forall i | 0 <= i < |v.items| ::
                  && v'.items[i] == Rewritten(v.items[i], COVERAGE_PATH + [Key(field), Index(i)], check, table)
                  && Identified(v'.items[i])
                  && IdOf(v'.items[i]) == Renamed(IdOf(v.items[i]), check, table))
            && IdsOf(v'.items) == RenamedIds(IdsOf(v.items), check, table)
  {
    var path := COVERAGE_PATH + [Key(field)];
    ListsKeepLength(v, path, check, table);
    var v' := Rewritten(v, path, check, table);
    forall i | 0 <= i < |v.items|
      ensures v'.items[i] == Rewritten(v.items[i], COVERAGE_PATH + [Key(field), Index(i)], check, table)
      ensures Identified(v'.items[i])
      ensures IdOf(v'.items[i]) == Renamed(IdOf(v.items[i]), check, table)
    {
      assert path + [Index(i)] == COVERAGE_PATH + [Key(field), Index(i)];
      RecordRenamed(v.items[i], field, i, check, table);
    }
  }

  lemma ApartKeepsDistinct(ids: seq<string>, all: set<string>, check: Admission, table: Table)
    requires Distinct(ids) && (forall i | 0 <= i < |ids| :: ids[i] in all) && RenamesApart(all, check, table)
    ensures Distinct(RenamedIds(ids, check, table))
  {
  }

  lemma DistinctShowsApart(ids: seq<string>, check: Admission, table: Table)
    requires Distinct(RenamedIds(ids, check, table))
    ensures RenamesApart(set i | 0 <= i < |ids| :: ids[i], check, table)
  {
    var all := set i | 0 <= i < |ids| :: ids[i];
    forall s, t | s in all && t in all && Renamed(s, check, table) == Renamed(t, check, table) ensures s == t {
      var i :| 0 <= i < |ids| && ids[i] == s;
      var j :| 0 <= j < |ids| && ids[j] == t;
      assert RenamedIds(ids, check, table)[i] == RenamedIds(ids, check, table)[j];
    }
  }

  // The parts of an accepted manifest, one by one.

  predicate CoverageRead(check: Admission) {
    && Reads(check, "coverage") && Reads(check, "selected") && Reads(check, "completed") && Reads(check, "reused")
    && Reads(check, "failed") && Reads(check, "waived")
  }

  lemma CoverageRewritten(m: Json, check: Admission, table: Table)
    requires m.Obj? && CoverageOf(m).Some? && ValidArrays(CoverageOf(m).value)
    ensures var m', c := Rewritten(m, MANIFEST_PATH, check, table), CoverageOf(m).value;
            && m'.Obj?
            && (CoverageRead(check) ==> CoverageOf(m') == Some(SanitisedCoverage(c, check, table)))
            && (CoverageOf(m').Some? && ValidArrays(CoverageOf(m').value) ==> CoverageRead(check))
  {
    hide Rewritten, ValidCoverage;
    OrdinaryBelow(COVERAGE_PATH);
    ReadKey(m, MANIFEST_PATH, "coverage", check, table);
    assert MANIFEST_PATH + [Key("coverage")] == COVERAGE_PATH;
    var coverage := Get(m, "coverage").value;
    ReadArray(coverage, "selected", check, table);
    ReadArray(coverage, "completed", check, table);
    ReadArray(coverage, "reused", check, table);
    ReadArray(coverage, "failed", check, table);
    ReadArray(coverage, "waived", check, table);
    MissingArray();
  }

  lemma MissingArray()
    ensures !ValidCoverage(None)
  {
  }

  lemma ReadArray(coverage: Json, field: string, check: Admission, table: Table)
    requires coverage.Obj? && field in CONTRACT_KEYS
    ensures Rewritten(coverage, COVERAGE_PATH, check, table).Obj?
    ensures Get(Rewritten(coverage, COVERAGE_PATH, check, table), field) ==
            if Reads(check, field) then OptionMap(Get(coverage, field), COVERAGE_PATH + [Key(field)], check, table)
            else None
  {
    OrdinaryBelow(COVERAGE_PATH + [Key(field)]);
    ReadKey(coverage, COVERAGE_PATH, field, check, table);
  }

  /** A failed item keeps its class exactly when the class is read and not replaced; its path and
      reason are publication sinks. */
  lemma FailureRead(record: Json, i: nat, check: Admission, table: Table)
    requires Setting(table) && Identified(record) && FailureClassified(record)
    ensures var record' := Rewritten(record, COVERAGE_PATH + [Key("failed"), Index(i)], check, table);
            && record'.Obj?
            && (FailureClassified(record') <==> Reads(check, "classification") && Kept(ClassOf(record), check, table))
            && (FailureClassified(record') ==> ClassOf(record') == ClassOf(record))
            && GetOrNull(record', "path") == GetOrNull(record, "path")
            && GetOrNull(record', "reason") == GetOrNull(record, "reason")
  {
    var path := COVERAGE_PATH + [Key("failed"), Index(i)];
    OrdinaryBelow(path + [Key("classification")]);
    ReadWord(record, path, "classification", ClassOf(record), check, table);
    FailureSink(record, path, "path", check, table);
    FailureSink(record, path, "reason", check, table);
  }

  lemma FailureSink(record: Json, path: Path, key: string, check: Admission, table: Table)
    requires record.Obj? && |path| == 4 && path[..3] == COVERAGE_PATH + [Key("failed")] && path[3].Index?
    requires key == "path" || key == "reason"
    ensures Rewritten(record, path, check, table).Obj?
    ensures GetOrNull(Rewritten(record, path, check, table), key) == GetOrNull(record, key)
  {
    var at := path + [Key(key)];
    assert at[..3] == [Key("manifest"), Key("coverage"), Key("failed")];
    assert ClosedSink(at);
    GetRewritten(record, path, key, check, table);
    if Get(record, key).Some? {
      ClosedSinkUntouched(Get(record, key).value, at, check, table);
      UnchangedExactly(Get(record, key).value, at, check, table);
    }
  }

  /** A waiver stays explained exactly when its reason is read. */
  lemma WaiverRead(record: Json, i: nat, check: Admission, table: Table)
    requires Setting(table) && record.Obj? && WaiverExplained(record)
    ensures var record' := Rewritten(record, COVERAGE_PATH + [Key("waived"), Index(i)], check, table);
            record'.Obj? && (WaiverExplained(record') <==> Reads(check, "reason"))
  {
    var path := COVERAGE_PATH + [Key("waived"), Index(i)];
    OrdinaryBelow(path + [Key("reason")]);
    ReadKey(record, path, "reason", check, table);
    var text := Get(record, "reason").value.text;
    if check(text).Rejected? && text in table {
      PlaceholdersAreSafe(table, text);
    }
  }

  lemma RunFailureRead(m: Json, check: Admission, table: Table)
    requires Numbered(table) && m.Obj? && ValidRunFailure(GetOrNull(m, "run_failure"))
    ensures Rewritten(m, MANIFEST_PATH, check, table).Obj?
    ensures var f, f' := GetOrNull(m, "run_failure"),
                         GetOrNull(Rewritten(m, MANIFEST_PATH, check, table), "run_failure");
            && (f == Null || !Reads(check, "run_failure") ==> f' == Null)
            && (f.Obj? && Reads(check, "run_failure") ==>
                  && f'.Obj?
                  && (ValidRunFailure(f') <==>
                      Reads(check, "classification") && Kept(Get(f, "classification").value.text, check, table))
                  && (ValidRunFailure(f') ==> Get(f', "classification") == Get(f, "classification")))
  {
    OrdinaryBelow(MANIFEST_PATH + [Key("run_failure")]);
    ReadKey(m, MANIFEST_PATH, "run_failure", check, table);
    var f := GetOrNull(m, "run_failure");
    if f.Obj? {
      var path := MANIFEST_PATH + [Key("run_failure")];
      OrdinaryBelow(path + [Key("classification")]);
      ReadWord(f, path, "classification", Get(f, "classification").value.text, check, table);
    }
  }

  predicate HeaderReadable(status: string, check: Admission, ok: Words) {
    && Reads(check, "schema_version") && Reads(check, "operation") && Reads(check, "terminal_state")
    && ok(MANIFEST_SCHEMA) && ok("review") && ok(status)
  }

  lemma HeaderRead(status: string, m: Json, check: Admission, table: Table)
    requires Numbered(table) && m.Obj? && ManifestKind(status).Some?
    requires Get(m, "schema_version") == Some(Str(MANIFEST_SCHEMA))
    requires Get(m, "operation") == Some(Str("review")) && Get(m, "terminal_state") == Some(Str(status))
    ensures var m' := Rewritten(m, MANIFEST_PATH, check, table);
            && m'.Obj?
            && (Get(m', "schema_version") == Get(m, "schema_version") && Get(m', "operation") == Get(m, "operation")
                && Get(m', "terminal_state") == Get(m, "terminal_state")
                <==> HeaderReadable(status, check, KeptWords(check, table)))
  {
    OrdinaryBelow(MANIFEST_PATH + [Key("schema_version")]);
    OrdinaryBelow(MANIFEST_PATH + [Key("operation")]);
    OrdinaryBelow(MANIFEST_PATH + [Key("terminal_state")]);
    ReadWord(m, MANIFEST_PATH, "schema_version", MANIFEST_SCHEMA, check, table);
    ReadWord(m, MANIFEST_PATH, "operation", "review", check, table);
    ReadWord(m, MANIFEST_PATH, "terminal_state", status, check, table);
  }

  /** Which words still stand after sanitising. */
  type Words = string -> bool

  function KeptWords(check: Admission, table: Table): Words { (w: string) => Kept(w, check, table) }

  // Renaming sets of identities.

  function Image(ids: set<string>, check: Admission, table: Table): set<string> {
    set s | s in ids :: Renamed(s, check, table)
  }

  lemma {:induction false} ImageSize(ids: set<string>, check: Admission, table: Table)
    requires RenamesApart(ids, check, table)
    ensures |Image(ids, check, table)| == |ids|
  {
    hide Renamed;
    if ids != {} {
      var s :| s in ids;
      var rest := ids - {s};
      ImageSize(rest, check, table);
      assert Renamed(s, check, table) !in Image(rest, check, table);
      assert Image(ids, check, table) == Image(rest, check, table) + {Renamed(s, check, table)};
    }
  }

  lemma ImageOfArray(v: Json, field: string, check: Admission, table: Table)
    requires Setting(table) && ValidCoverage(Some(v)) && IdsRead(v, check)
    requires ValidCoverage(Some(Rewritten(v, COVERAGE_PATH + [Key(field)], check, table)))
    ensures IdSet(Some(Rewritten(v, COVERAGE_PATH + [Key(field)], check, table))) ==
            Image(IdSet(Some(v)), check, table)
  {
    ArrayRenamed(v, field, check, table);
    var v' := Rewritten(v, COVERAGE_PATH + [Key(field)], check, table);
    forall s | s in Image(IdSet(Some(v)), check, table) ensures s in IdSet(Some(v')) {
      var i :| 0 <= i < |v.items| && Renamed(IdOf(v.items[i]), check, table) == s;
      assert IdOf(v'.items[i]) == s;
    }
  }

  lemma ImagesPartition(a: set<string>, b: set<string>, c: set<string>, d: set<string>,
                        all: set<string>, check: Admission, table: Table)
    requires a !! b !! c !! d && a + b + c + d == all && RenamesApart(all, check, table)
    ensures Image(a, check, table) !! Image(b, check, table) !! Image(c, check, table) !! Image(d, check, table)
    ensures Image(a, check, table) + Image(b, check, table) + Image(c, check, table) + Image(d, check, table) ==
            Image(all, check, table)
  {
  }

  lemma ArrayStaysValid(v: Json, field: string, all: set<string>, check: Admission, table: Table)
    requires Setting(table) && ValidCoverage(Some(v)) && IdsRead(v, check)
    requires IdSet(Some(v)) <= all && RenamesApart(all, check, table)
    ensures var v' := Rewritten(v, COVERAGE_PATH + [Key(field)], check, table);
            && ValidCoverage(Some(v')) && IdSet(Some(v')) == Image(IdSet(Some(v)), check, table)
            && |IdSet(Some(v'))| == |IdSet(Some(v))|
  {
    ArrayRenamed(v, field, check, table);
    forall i | 0 <= i < |v.items| ensures IdsOf(v.items)[i] in all {
      assert IdOf(v.items[i]) in IdSet(Some(v));
    }
    ApartKeepsDistinct(IdsOf(v.items), all, check, table);
    ImageOfArray(v, field, check, table);
    ImageSize(IdSet(Some(v)), check, table);
  }

  /** The coverage of the sanitised manifest. */
  function SanitisedCoverage(c: Coverage, check: Admission, table: Table): Coverage {
    Coverage(
      OptionMap(c.selected, COVERAGE_PATH + [Key("selected")], check, table),
      OptionMap(c.completed, COVERAGE_PATH + [Key("completed")], check, table),
      OptionMap(c.reused, COVERAGE_PATH + [Key("reused")], check, table),
      OptionMap(c.failed, COVERAGE_PATH + [Key("failed")], check, table),
      OptionMap(c.waived, COVERAGE_PATH + [Key("waived")], check, table))
  }

  predicate AllIdsRead(c: Coverage, check: Admission)
    requires ValidArrays(c)
  {
    && IdsRead(c.selected.value, check) && IdsRead(c.completed.value, check) && IdsRead(c.reused.value, check)
    && IdsRead(c.failed.value, check) && IdsRead(c.waived.value, check)
  }

  /** Identities are read when there are any to read. */
  lemma IdsReadExactly(c: Coverage, check: Admission)
    requires ValidArrays(c) && Partitioned(c)
    ensures AllIdsRead(c, check) <==> IdSet(c.selected) == {} || Reads(check, "item_id")
  {
    NoItemsNoIds(c.selected);
    NoItemsNoIds(c.completed);
    NoItemsNoIds(c.reused);
    NoItemsNoIds(c.failed);
    NoItemsNoIds(c.waived);
  }

  lemma NoItemsNoIds(v: Option<Json>)
    requires ValidCoverage(v)
    ensures v.value.items == [] <==> IdSet(v) == {}
  {
    if v.value.items != [] { assert IdOf(v.value.items[0]) in IdSet(v); }
  }

  lemma ArraysKept(c: Coverage, all: set<string>, check: Admission, table: Table)
    requires Setting(table) && ValidArrays(c) && RenamesApart(all, check, table) && AllIdsRead(c, check)
    requires IdSet(c.selected) <= all && IdSet(c.completed) <= all && IdSet(c.reused) <= all
    requires IdSet(c.failed) <= all && IdSet(c.waived) <= all
    ensures var c' := SanitisedCoverage(c, check, table);
            && ValidArrays(c')
            && IdSet(c'.selected) == Image(IdSet(c.selected), check, table)
            && IdSet(c'.completed) == Image(IdSet(c.completed), check, table)
            && IdSet(c'.reused) == Image(IdSet(c.reused), check, table)
            && IdSet(c'.failed) == Image(IdSet(c.failed), check, table)
            && IdSet(c'.waived) == Image(IdSet(c.waived), check, table)
  {
    assert c.selected.Some? && c.completed.Some? && c.reused.Some? && c.failed.Some? && c.waived.Some?;
    hide Rewritten, ValidCoverage, IdSet, Image, RenamesApart;
    ArrayStaysValid(c.selected.value, "selected", all, check, table);
    ArrayStaysValid(c.completed.value, "completed", all, check, table);
    ArrayStaysValid(c.reused.value, "reused", all, check, table);
    ArrayStaysValid(c.failed.value, "failed", all, check, table);
    ArrayStaysValid(c.waived.value, "waived", all, check, table);
  }

  lemma PartitionKept(c: Coverage, check: Admission, table: Table)
    requires Setting(table) && ValidArrays(c) && Partitioned(c) && AllIdsRead(c, check)
    requires RenamesApart(IdSet(c.selected), check, table)
    ensures var c' := SanitisedCoverage(c, check, table);
            && ValidArrays(c') && Partitioned(c')
            && |IdSet(c'.selected)| == |IdSet(c.selected)| && |IdSet(c'.completed)| == |IdSet(c.completed)|
            && |IdSet(c'.reused)| == |IdSet(c.reused)| && |IdSet(c'.failed)| == |IdSet(c.failed)|
            && |IdSet(c'.waived)| == |IdSet(c.waived)|
            && (IdSet(c'.failed) == IdSet(c'.selected) <==> IdSet(c.failed) == IdSet(c.selected))
  {
    hide ValidArrays, ValidCoverage, Partitioned, AllIdsRead, RenamesApart, IdSet, Image, SanitisedCoverage;
    PartitionIs(c);
    var all := IdSet(c.selected);
    ArraysKept(c, all, check, table);
    PartitionIs(SanitisedCoverage(c, check, table));
    ImagesKept(IdSet(c.completed), IdSet(c.reused), IdSet(c.failed), IdSet(c.waived), all, check, table);
  }

  lemma PartitionIs(c: Coverage)
    requires ValidArrays(c)
    ensures ValidCoverage(c.selected) && ValidCoverage(c.completed) && ValidCoverage(c.reused)
    ensures ValidCoverage(c.failed) && ValidCoverage(c.waived)
    ensures var (completed, reused, failed, waived) :=
              (IdSet(c.completed), IdSet(c.reused), IdSet(c.failed), IdSet(c.waived));
            Partitioned(c) <==>
            completed !! reused !! failed !! waived && completed + reused + failed + waived == IdSet(c.selected)
  {
  }

  lemma ImagesKept(a: set<string>, b: set<string>, c: set<string>, d: set<string>,
                   all: set<string>, check: Admission, table: Table)
    requires a !! b !! c !! d && a + b + c + d == all && RenamesApart(all, check, table)
    ensures Image(a, check, table) !! Image(b, check, table) !! Image(c, check, table) !! Image(d, check, table)
    ensures Image(a, check, table) + Image(b, check, table) + Image(c, check, table) + Image(d, check, table) ==
            Image(all, check, table)
    ensures |Image(a, check, table)| == |a| && |Image(b, check, table)| == |b| && |Image(c, check, table)| == |c|
    ensures |Image(d, check, table)| == |d| && |Image(all, check, table)| == |all|
    ensures Image(c, check, table) == Image(all, check, table) <==> c == all
  {
    assert RenamesApart(a, check, table) && RenamesApart(b, check, table);
    assert RenamesApart(c, check, table) && RenamesApart(d, check, table);
    ImagesPartition(a, b, c, d, all, check, table);
    hide Image, RenamesApart;
    ImageSize(all, check, table);
    ImageSize(a, check, table);
    ImageSize(b, check, table);
    ImageSize(c, check, table);
    ImageSize(d, check, table);
    if Image(c, check, table) == Image(all, check, table) {
      SubsetOfEqualSize(c, all);
    }
  }

  predicate FailuresReadable(c: Coverage, check: Admission, ok: Words)
    requires ValidArrays(c) && ExplainedRecords(c)
  {
    forall i | 0 <= i < |c.failed.value.items| ::
      Reads(check, "classification") && ok(ClassOf(c.failed.value.items[i]))
  }

  predicate WaiversReadable(c: Coverage, check: Admission)
    requires ValidArrays(c)
  {
    c.waived.value.items == [] || Reads(check, "reason")
  }

  /** The sanitised records, one by one. */
  lemma RecordsRewritten(c: Coverage, check: Admission, table: Table)
    requires Setting(table) && ValidArrays(c) && ValidArrays(SanitisedCoverage(c, check, table)) && AllIdsRead(c, check)
    ensures var c' := SanitisedCoverage(c, check, table);
            && |c'.failed.value.items| == |c.failed.value.items| && |c'.waived.value.items| == |c.waived.value.items|
            && (forall i | 0 <= i < |c.failed.value.items| ::
                  c'.failed.value.items[i] ==
                  Rewritten(c.failed.value.items[i], COVERAGE_PATH + [Key("failed"), Index(i)], check, table)
                  && IdOf(c'.failed.value.items[i]) == Renamed(IdOf(c.failed.value.items[i]), check, table))
            && (forall i | 0 <= i < |c.waived.value.items| ::
                  c'.waived.value.items[i] ==
                  Rewritten(c.waived.value.items[i], COVERAGE_PATH + [Key("waived"), Index(i)], check, table))
  {
    hide Rewritten;
    ArrayRenamed(c.failed.value, "failed", check, table);
    ArrayRenamed(c.waived.value, "waived", check, table);
  }

  /** Failure classes and waivers survive sanitising exactly when they are read; with them the
      failed items are the same up to the renaming. */
  lemma ExplanationsKept(c: Coverage, check: Admission, table: Table)
    requires Setting(table) && ValidArrays(c) && ExplainedRecords(c)
    requires ValidArrays(SanitisedCoverage(c, check, table)) && AllIdsRead(c, check)
    ensures var c' := SanitisedCoverage(c, check, table);
            && (ExplainedRecords(c') <==>
                FailuresReadable(c, check, KeptWords(check, table)) && WaiversReadable(c, check))
            && (ExplainedRecords(c') ==>
                && FailuresOf(c'.failed.value.items) == RenamedFailures(FailuresOf(c.failed.value.items), check, table)
                && forall i | 0 <= i < |c.failed.value.items| ::
                     ClassOf(c'.failed.value.items[i]) == ClassOf(c.failed.value.items[i]))
  {
    hide Rewritten, Setting, FailureClassified, WaiverExplained, Kept, Reads;
    var c' := SanitisedCoverage(c, check, table);
    RecordsRewritten(c, check, table);
    forall i | 0 <= i < |c.failed.value.items|
      ensures c.failed.value.items[i].Obj? && c'.failed.value.items[i].Obj?
      ensures FailureClassified(c'.failed.value.items[i]) <==>
              Reads(check, "classification") && Kept(ClassOf(c.failed.value.items[i]), check, table)
      ensures FailureClassified(c'.failed.value.items[i]) ==>
              && ClassOf(c'.failed.value.items[i]) == ClassOf(c.failed.value.items[i])
              && FailureOf(c'.failed.value.items[i]) ==
                 RenamedFailure(FailureOf(c.failed.value.items[i]), check, table)
    {
      IdentifiedAt(c.failed, i);
      FailureRead(c.failed.value.items[i], i, check, table);
    }
    forall i | 0 <= i < |c.waived.value.items|
      ensures c'.waived.value.items[i].Obj? && (WaiverExplained(c'.waived.value.items[i]) <==> Reads(check, "reason"))
    {
      IdentifiedAt(c.waived, i);
      WaiverRead(c.waived.value.items[i], i, check, table);
    }
    if c.waived.value.items != [] {
      assert WaiverExplained(c'.waived.value.items[0]) <==> Reads(check, "reason");
    }
    if ExplainedRecords(c') {
      AllRenamed(c.failed.value.items, c'.failed.value.items, check, table);
    }
  }

  lemma AllRenamed(records: seq<Json>, records': seq<Json>, check: Admission, table: Table)
    requires |records'| == |records|
    requires forall i | 0 <= i < |records| ::
               && Identified(records[i]) && FailureClassified(records[i])
               && Identified(records'[i]) && FailureClassified(records'[i])
               && FailureOf(records'[i]) == RenamedFailure(FailureOf(records[i]), check, table)
    ensures FailuresOf(records') == RenamedFailures(FailuresOf(records), check, table)
  {
    hide Identified, FailureClassified, FailureOf, RenamedFailure;
    var all, all' := FailuresOf(records), FailuresOf(records');
    assert forall i | 0 <= i < |records| :: all[i] == FailureOf(records[i]) && all'[i] == FailureOf(records'[i]);
  }

  lemma IdentifiedAt(v: Option<Json>, i: nat)
    requires ValidCoverage(v) && i < |v.value.items|
    ensures Identified(v.value.items[i])
  {
  }

  function RenamedFailure(f: CoverageFailure, check: Admission, table: Table): CoverageFailure {
    f.(itemId := Renamed(f.itemId, check, table))
  }

  function RenamedFailures(fs: seq<CoverageFailure>, check: Admission, table: Table): seq<CoverageFailure> {
    seq(|fs|, i requires 0 <= i < |fs| => RenamedFailure(fs[i], check, table))
  }

  /** The same outcome with renamed identities in the list of failed items. */
  function RenamedOutcome(o: Outcome, check: Admission, table: Table): Outcome {
    o.(failedItems := RenamedFailures(o.failedItems, check, table))
  }

  /** Some failed item failed on the budget. */
  predicate ItemOverBudget(c: Coverage)
    requires ValidArrays(c) && ExplainedRecords(c)
  {
    exists i :: 0 <= i < |c.failed.value.items| && ClassOf(c.failed.value.items[i]) == "budget"
  }

  /** The run failure is read with its class; or its key is dropped, and the failed items alone
      give the same state. */
  predicate RunFailureReadable(c: Coverage, f: Json, budget: bool, check: Admission, ok: Words)
    requires ValidArrays(c) && ExplainedRecords(c) && ValidRunFailure(f)
  {
    f == Null ||
    if Reads(check, "run_failure") then Reads(check, "classification") && ok(Get(f, "classification").value.text)
    else IdSet(c.failed) == IdSet(c.selected) != {} && (budget ==> ItemOverBudget(c))
  }

  /** Everything an accepted manifest is read from is still there after sanitising. */
  predicate ManifestReadable(status: string, m: Json, budget: bool, check: Admission, ok: Words)
    requires ManifestAccepted(status, m, budget)
  {
    var c := CoverageOf(m).value;
    && HeaderReadable(status, check, ok) && CoverageRead(check)
    && (IdSet(c.selected) == {} || Reads(check, "item_id"))
    && FailuresReadable(c, check, ok) && WaiversReadable(c, check)
    && RunFailureReadable(c, GetOrNull(m, "run_failure"), budget, check, ok)
  }

  /** The coverage of a manifest whose coverage is read and renamed apart. */
  lemma ReadableCoverage(m: Json, check: Admission, table: Table)
    requires Setting(table) && m.Obj? && CoverageOf(m).Some?
    requires var c := CoverageOf(m).value;
             && ValidArrays(c) && Partitioned(c) && ExplainedRecords(c)
             && CoverageRead(check) && (IdSet(c.selected) == {} || Reads(check, "item_id"))
             && RenamesApart(IdSet(c.selected), check, table)
    ensures var m', c := Rewritten(m, MANIFEST_PATH, check, table), CoverageOf(m).value;
            var c' := SanitisedCoverage(c, check, table);
            && m'.Obj? && CoverageOf(m') == Some(c') && ValidArrays(c') && Partitioned(c')
            && |IdSet(c'.selected)| == |IdSet(c.selected)| && |IdSet(c'.completed)| == |IdSet(c.completed)|
            && |IdSet(c'.reused)| == |IdSet(c.reused)| && |IdSet(c'.failed)| == |IdSet(c.failed)|
            && |IdSet(c'.waived)| == |IdSet(c.waived)|
            && (IdSet(c'.failed) == IdSet(c'.selected) <==> IdSet(c.failed) == IdSet(c.selected))
            && AllIdsRead(c, check)
  {
    hide Rewritten, ValidCoverage, IdSet, SanitisedCoverage, RenamesApart, Partitioned;
    CoverageRewritten(m, check, table);
    IdsReadExactly(CoverageOf(m).value, check);
    PartitionKept(CoverageOf(m).value, check, table);
  }

  lemma OverBudgetKept(c: Coverage, c': Coverage)
    requires ValidArrays(c) && ExplainedRecords(c) && ValidArrays(c') && ExplainedRecords(c')
    requires |c'.failed.value.items| == |c.failed.value.items|
    requires forall i | 0 <= i < |c.failed.value.items| ::
               ClassOf(c'.failed.value.items[i]) == ClassOf(c.failed.value.items[i])
    ensures ItemOverBudget(c') <==> ItemOverBudget(c)
  {
    if i :| 0 <= i < |c.failed.value.items| && ClassOf(c.failed.value.items[i]) == "budget" {
      assert ClassOf(c'.failed.value.items[i]) == "budget";
    }
    if i :| 0 <= i < |c'.failed.value.items| && ClassOf(c'.failed.value.items[i]) == "budget" {
      assert ClassOf(c.failed.value.items[i]) == "budget";
    }
  }

  lemma StateKept(c: Coverage, c': Coverage)
    requires ValidArrays(c) && ValidArrays(c')
    requires |IdSet(c'.selected)| == |IdSet(c.selected)| && |IdSet(c'.failed)| == |IdSet(c.failed)|
    requires IdSet(c'.failed) == IdSet(c'.selected) <==> IdSet(c.failed) == IdSet(c.selected)
    ensures DerivedState(c', Null) == DerivedState(c, Null)
    ensures IdSet(c'.selected) == {} <==> IdSet(c.selected) == {}
  {
    assert IdSet(c.selected) == {} <==> |IdSet(c.selected)| == 0;
    assert IdSet(c'.selected) == {} <==> |IdSet(c'.selected)| == 0;
    assert IdSet(c.failed) == {} <==> |IdSet(c.failed)| == 0;
    assert IdSet(c'.failed) == {} <==> |IdSet(c'.failed)| == 0;
  }

  /** The last clauses of the contract: run failure, derived state and budget. */
  predicate Settles(status: string, c: Coverage, f: Json, budget: bool)
    requires ValidArrays(c) && ExplainedRecords(c)
  {
    && ValidRunFailure(f) && status == DerivedState(c, f)
    && (budget ==> BudgetFailure(c, f) && status != "complete" && status != "skipped")
  }

  /** With kept coverage and explanations, the last clauses hold again exactly when the run
      failure is readable. */
  lemma SettlesExactly(status: string, m: Json, budget: bool, c: Coverage, c': Coverage, check: Admission, table: Table)
    requires Setting(table) && m.Obj? && ValidArrays(c) && ExplainedRecords(c)
             && ValidArrays(c') && ExplainedRecords(c')
    requires Settles(status, c, GetOrNull(m, "run_failure"), budget)
    requires DerivedState(c', Null) == DerivedState(c, Null) && (ItemOverBudget(c') <==> ItemOverBudget(c))
    ensures Rewritten(m, MANIFEST_PATH, check, table).Obj?
    ensures Settles(status, c', GetOrNull(Rewritten(m, MANIFEST_PATH, check, table), "run_failure"), budget)
            <==> RunFailureReadable(c, GetOrNull(m, "run_failure"), budget, check, KeptWords(check, table))
  {
    hide Rewritten, ValidArrays, ExplainedRecords, IdSet, FailureClassified, ValidCoverage, Reads, Kept;
    RunFailureRead(m, check, table);
    StateOfItems(c);
    StateOfItems(c');
    var f := GetOrNull(m, "run_failure");
    assert f != Null ==> f.Obj?;
  }

  lemma StateOfItems(c: Coverage)
    requires ValidArrays(c)
    ensures DerivedState(c, Null) == "failed" <==> IdSet(c.failed) == IdSet(c.selected) != {}
    ensures forall f | f != Null :: DerivedState(c, f) == "failed"
  {
  }

  /** A coverage array that is still valid was read, and its identities are renamed apart. */
  lemma ValidityShowsApart(v: Json, field: string, check: Admission, table: Table)
    requires Setting(table) && ValidCoverage(Some(v))
    requires ValidCoverage(Some(Rewritten(v, COVERAGE_PATH + [Key(field)], check, table)))
    ensures IdsRead(v, check) && RenamesApart(IdSet(Some(v)), check, table)
  {
    var path := COVERAGE_PATH + [Key(field)];
    ListsKeepLength(v, path, check, table);
    if v.items != [] {
      assert path + [Index(0)] == COVERAGE_PATH + [Key(field), Index(0)];
      RecordRenamed(v.items[0], field, 0, check, table);
    }
    ArrayRenamed(v, field, check, table);
    IdSetOfIds(v);
    hide *;
    DistinctShowsApart(IdsOf(v.items), check, table);
  }

  lemma IdSetOfIds(v: Json)
    requires ValidCoverage(Some(v))
    ensures IdSet(Some(v)) == set i | 0 <= i < |v.items| :: IdsOf(v.items)[i]
  {
    assert forall i | 0 <= i < |v.items| :: IdsOf(v.items)[i] == IdOf(v.items[i]);
  }

  /** What a sanitised manifest with readable coverage shows about the original. */
  lemma CoverageShowsApart(m: Json, check: Admission, table: Table)
    requires Setting(table) && m.Obj? && CoverageOf(m).Some? && ValidArrays(CoverageOf(m).value)
    requires Partitioned(CoverageOf(m).value)
    requires var m' := Rewritten(m, MANIFEST_PATH, check, table);
             m'.Obj? && CoverageOf(m').Some? && ValidArrays(CoverageOf(m').value)
    ensures var c := CoverageOf(m).value;
            && CoverageRead(check) && (IdSet(c.selected) == {} || Reads(check, "item_id"))
            && RenamesApart(IdSet(c.selected), check, table)
  {
    hide Rewritten, ValidCoverage, IdSet, RenamesApart, Partitioned, CoverageRead, Reads, Setting;
    CoverageRewritten(m, check, table);
    var c := CoverageOf(m).value;
    SelectedIsSome(c);
    ValidityShowsApart(c.selected.value, "selected", check, table);
    NoItemsNoIds(c.selected);
  }

  lemma SelectedIsSome(c: Coverage)
    requires ValidArrays(c)
    ensures c.selected.Some? && c.selected.value.Arr? && c.selected == Some(c.selected.value)
  {
  }

  /** An accepted manifest stays accepted after sanitising exactly when everything it is read
      from is still there and the renaming keeps the selected identities apart; its outcome is
      then the same up to that renaming. */
  lemma ManifestMeaningKept(status: string, m: Json, budget: bool, check: Admission, table: Table)
    requires Setting(table) && ManifestAccepted(status, m, budget)
    ensures var m' := Rewritten(m, MANIFEST_PATH, check, table);
            && m'.Obj?
            && (ManifestAccepted(status, m', budget) <==>
                ManifestReadable(status, m, budget, check, KeptWords(check, table))
                && RenamesApart(IdSet(CoverageOf(m).value.selected), check, table))
            && (ManifestAccepted(status, m', budget) ==>
                ManifestOutcome(status, m', budget) ==
                RenamedOutcome(ManifestOutcome(status, m, budget), check, table))
  {
    hide Rewritten, ValidCoverage, IdSet, RenamesApart, ValidRunFailure, Partitioned, ExplainedRecords, Reads, Kept;
    hide FailuresOf, RenamedFailures, ManifestKind, HeaderReadable, CoverageRead, FailuresReadable, WaiversReadable;
    hide Numbered, RunFailureReadable, DerivedState, BudgetFailure, SanitisedCoverage, AllIdsRead, ItemOverBudget;
    var m', c := Rewritten(m, MANIFEST_PATH, check, table), CoverageOf(m).value;
    HeaderRead(status, m, check, table);
    if CoverageOf(m').Some? && ValidArrays(CoverageOf(m').value) { CoverageShowsApart(m, check, table); }
    if CoverageRead(check) && (IdSet(c.selected) == {} || Reads(check, "item_id"))
       && RenamesApart(IdSet(c.selected), check, table) {
      var c' := SanitisedCoverage(c, check, table);
      ReadableCoverage(m, check, table);
      ExplanationsKept(c, check, table);
      RecordsRewritten(c, check, table);
      StateKept(c, c');
      if ExplainedRecords(c') {
        OverBudgetKept(c, c');
        SettlesExactly(status, m, budget, c, c', check, table);
      }
    }
  }

  // The result as a whole.

  /** The selected identities of a result that carries a readable manifest. */
  function SelectedIds(payload: Json): set<string>
    requires payload.Obj?
  {
    var m := GetOrNull(payload, "manifest");
    if m.Obj? && CoverageOf(m).Some? && ValidCoverage(CoverageOf(m).value.selected)
    then IdSet(CoverageOf(m).value.selected) else {}
  }

  /** The status is not given, or is read and not replaced; or its key is dropped and it was the
      default. */
  predicate StatusReadable(payload: Json, check: Admission, ok: Words)
    requires payload.Obj? && StatusOf(payload).Ok?
  {
    Get(payload, "status") == None ||
    if Reads(check, "status") then ok(StatusOf(payload).value) else StatusOf(payload).value == "success"
  }

  predicate BudgetReadable(payload: Json, check: Admission)
    requires payload.Obj? && BudgetExceeded(payload).Ok?
  {
    BudgetExceeded(payload).value ==> Reads(check, "summary") && Reads(check, "budget_exceeded")
  }

  /** Everything the outcome of an acceptable result is read from is still there. */
  predicate Readable(payload: Json, check: Admission, ok: Words)
    requires payload.Obj? && ParseOutcome(payload).Ok?
  {
    && StatusReadable(payload, check, ok) && BudgetReadable(payload, check)
    && var m := GetOrNull(payload, "manifest");
       (m == Null
        || (Reads(check, "manifest")
            && ManifestReadable(StatusOf(payload).value, m, BudgetExceeded(payload).value, check, ok)))
  }

  lemma StatusRead(payload: Json, check: Admission, table: Table)
    requires Numbered(table) && payload.Obj? && StatusOf(payload).Ok? && ContractWord(StatusOf(payload).value)
    ensures var p' := Rewritten(payload, [], check, table);
            && p'.Obj?
            && (StatusOf(p') == StatusOf(payload) <==> StatusReadable(payload, check, KeptWords(check, table)))
            && (StatusOf(p').Ok? && StatusOf(p') != StatusOf(payload) ==>
                StatusOf(p').value == "success" || !ContractWord(StatusOf(p').value))
  {
    hide Rewritten, Numbered, Kept, Ordinary, ContractWord;
    var status := StatusOf(payload).value;
    StatusIsOrdinary();
    SuccessIsWord();
    if Get(payload, "status").Some? {
      ReadWord(payload, [], "status", status, check, table);
      WordsAreText(status);
    } else {
      ReadKey(payload, [], "status", check, table);
    }
  }

  lemma StatusIsOrdinary()
    ensures Ordinary([] + [Key("status")]) && "status" in CONTRACT_KEYS
  {
    var at: Path := [Key("status")];
    assert [] + at == at;
  }

  lemma SuccessIsWord()
    ensures ContractWord("success")
  {
  }

  lemma WordsAreText(w: string)
    requires ContractWord(w)
    ensures w != ""
  {
  }

  /** The budget flag survives exactly when it is read; otherwise it reads as not set. */
  lemma BudgetRead(payload: Json, check: Admission, table: Table)
    requires payload.Obj? && BudgetExceeded(payload).Ok?
    ensures var p' := Rewritten(payload, [], check, table);
            && p'.Obj? && BudgetExceeded(p').Ok?
            && (BudgetExceeded(p') == BudgetExceeded(payload) <==> BudgetReadable(payload, check))
            && (!Reads(check, "summary") || !Reads(check, "budget_exceeded") ==> BudgetExceeded(p') == Ok(false))
  {
    var at: Path := [Key("summary")];
    assert [] + at == at && Ordinary(at) && Ordinary(at + [Key("budget_exceeded")]);
    ReadKey(payload, [], "summary", check, table);
    var summary := GetOrNull(payload, "summary");
    if summary.Obj? {
      ReadKey(summary, at, "budget_exceeded", check, table);
    }
  }

  lemma ManifestRead(payload: Json, check: Admission, table: Table)
    requires payload.Obj?
    ensures var p', m := Rewritten(payload, [], check, table), GetOrNull(payload, "manifest");
            && p'.Obj?
            && GetOrNull(p', "manifest") ==
               if m == Null || !Reads(check, "manifest") then Null else Rewritten(m, MANIFEST_PATH, check, table)
  {
    assert [] + [Key("manifest")] == MANIFEST_PATH;
    OrdinaryBelow(MANIFEST_PATH);
    ReadKey(payload, [], "manifest", check, table);
  }

  /** Sanitising keeps the meaning of an acceptable result exactly when everything the outcome is
      read from is still there and the renaming keeps the selected identities apart. The meaning
      is the status, kind, budget flag, five counts, and the failed items up to their renamed
      identities. */
  lemma SanitisingKeepsMeaning(payload: Json, check: Admission, table: Table)
    requires payload.Obj? && Setting(table) && ParseOutcome(payload).Ok?
    ensures Rewritten(payload, [], check, table).Obj?
    ensures ParseOutcome(Rewritten(payload, [], check, table)) ==
            Ok(RenamedOutcome(ParseOutcome(payload).value, check, table))
            <==> Readable(payload, check, KeptWords(check, table)) && RenamesApart(SelectedIds(payload), check, table)
  {
    hide Rewritten, StatusOf, BudgetExceeded, StatusReadable, BudgetReadable, ManifestReadable, RenamesApart, Numbered;
    hide ManifestAccepted, ManifestOutcome, LegacyKind, Reads, RenamedOutcome;
    var p', m := Rewritten(payload, [], check, table), GetOrNull(payload, "manifest");
    StatusIsWord(payload);
    StatusRead(payload, check, table);
    BudgetRead(payload, check, table);
    ManifestRead(payload, check, table);
    OutcomeShows(payload);
    OutcomeShows(p');
    RenamingShows(ParseOutcome(payload).value, check, table);
    SelectedOfManifest(payload, check, table);
    if m != Null {
      ManifestMeaningKept(StatusOf(payload).value, m, BudgetExceeded(payload).value, check, table);
    }
  }

  /** With status, budget flag and manifest read, a sanitised result is either refused or means
      the same. */
  lemma RefusedOrKept(payload: Json, check: Admission, table: Table)
    requires payload.Obj? && Setting(table) && ParseOutcome(payload).Ok? && GetOrNull(payload, "manifest") != Null
    requires StatusOf(payload).Ok? && BudgetExceeded(payload).Ok?
    requires StatusReadable(payload, check, KeptWords(check, table)) && BudgetReadable(payload, check)
    requires Reads(check, "manifest")
    ensures var p' := Rewritten(payload, [], check, table);
            && p'.Obj?
            && (ParseOutcome(p').Ok? ==>
                ParseOutcome(p') == Ok(RenamedOutcome(ParseOutcome(payload).value, check, table)))
  {
    hide Rewritten, StatusOf, BudgetExceeded, StatusReadable, BudgetReadable, ManifestReadable, RenamesApart, Numbered;
    hide ManifestAccepted, ManifestOutcome, LegacyKind, Reads, RenamedOutcome;
    var p', m := Rewritten(payload, [], check, table), GetOrNull(payload, "manifest");
    StatusIsWord(payload);
    StatusRead(payload, check, table);
    BudgetRead(payload, check, table);
    ManifestRead(payload, check, table);
    OutcomeShows(payload);
    OutcomeShows(p');
    ManifestMeaningKept(StatusOf(payload).value, m, BudgetExceeded(payload).value, check, table);
  }

  /** What an outcome says about the result it was read from. */
  lemma OutcomeShows(payload: Json)
    requires payload.Obj?
    ensures var o, m := ParseOutcome(payload), GetOrNull(payload, "manifest");
            o.Ok? ==>
              && StatusOf(payload) == Ok(o.value.status) && BudgetExceeded(payload) == Ok(o.value.budgetExceeded)
              && (o.value.manifestPresent <==> m != Null)
              && (m != Null ==> ManifestAccepted(o.value.status, m, o.value.budgetExceeded))
  {
  }

  lemma RenamingShows(o: Outcome, check: Admission, table: Table)
    ensures var r := RenamedOutcome(o, check, table);
            && r.status == o.status && r.budgetExceeded == o.budgetExceeded && r.manifestPresent == o.manifestPresent
            && (o.failedItems == [] ==> r == o)
  {
  }

  lemma SelectedOfManifest(payload: Json, check: Admission, table: Table)
    requires payload.Obj? && ParseOutcome(payload).Ok?
    ensures var m := GetOrNull(payload, "manifest");
            && (m == Null ==> RenamesApart(SelectedIds(payload), check, table)
                              && ParseOutcome(payload).value.failedItems == [])
            && (m != Null ==> m.Obj? && CoverageOf(m).Some? && ValidCoverage(CoverageOf(m).value.selected)
                              && SelectedIds(payload) == IdSet(CoverageOf(m).value.selected))
  {
  }

  lemma StatusIsWord(payload: Json)
    requires payload.Obj? && ParseOutcome(payload).Ok?
    ensures StatusOf(payload).Ok? && BudgetExceeded(payload).Ok? && ContractWord(StatusOf(payload).value)
  {
  }

  /** Identities stay apart exactly when no kept identity is the placeholder of a replaced one. */
  lemma ApartMeansNoCollision(ids: set<string>, check: Admission, table: Table)
    requires Numbered(table)
    ensures RenamesApart(ids, check, table) <==>
            forall s, t | s in ids && t in ids && !Kept(s, check, table) && Kept(t, check, table) :: table[s] != t
  {
    forall s, t | s in ids && t in ids && !Kept(s, check, table) && !Kept(t, check, table) && table[s] == table[t]
      ensures s == t
    {
      PlaceholdersInjective(table, s, t);
    }
    if RenamesApart(ids, check, table) {
      forall s, t | s in ids && t in ids && !Kept(s, check, table) && Kept(t, check, table)
        ensures table[s] != t
      {
        assert Renamed(t, check, table) == t;
      }
    }
  }

  /** So the meaning of a readable result is kept whenever no identity already looks like a
      placeholder. */
  lemma NoLookalikesKeepMeaning(payload: Json, check: Admission, table: Table)
    requires payload.Obj? && Setting(table) && ParseOutcome(payload).Ok?
    requires Readable(payload, check, KeptWords(check, table))
    requires forall id, n: nat | id in SelectedIds(payload) :: id != Placeholder.Label(n)
    ensures ParseOutcome(Rewritten(payload, [], check, table)) ==
            Ok(RenamedOutcome(ParseOutcome(payload).value, check, table))
  {
    hide Readable;
    forall s | s in table ensures exists n: nat :: table[s] == Placeholder.Label(n) {
      var order :| NumberedBy(table, order);
      var i :| 0 <= i < |order| && order[i] == s;
    }
    ApartMeansNoCollision(SelectedIds(payload), check, table);
    SanitisingKeepsMeaning(payload, check, table);
  }
}
