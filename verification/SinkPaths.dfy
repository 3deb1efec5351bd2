/** The publication sinks, key by key: what sanitising keeps, replaces and removes at each path of
    a result, told without the path predicates of the walk. */
module SinkPaths {
  import opened Json
  import opened Rewrite
  import opened RewriteLaws

  // Paths written out.

  const COMMENT_FIELDS := {
    "category", "content", "end_line", "existing_code", "line", "old_path", "path", "priority",
    "rule_id", "severity", "start_line", "suggestion_code"
  }

  const PRIVATE_KEYS := {
    "encrypted_content", "native_payload", "reasoning_content", "redacted_thinking", "thinking", "tool_choice"
  }

  const PUBLIC_TOOLS := {
    "code_comment", "code_search", "context_get", "context_list", "file_find", "file_read",
    "file_read_diff", "ocr_toolkit_evidence", "ocr_toolkit_evidence_coverage",
    "ocr_toolkit_evidence_search", "ocr_toolkit_review_diagram", "task_done"
  }

  function Warnings(rest: Path): Path { [Key("warnings")] + rest }

  function CommentField(i: nat, field: string, rest: Path): Path {
    [Key("comments"), Index(i), Key(field)] + rest
  }

  function FailureField(i: nat, field: string, rest: Path): Path {
    [Key("manifest"), Key("coverage"), Key("failed"), Index(i), Key(field)] + rest
  }

  /** The four places of a result that reach publication. */
  ghost predicate Published(path: Path) {
    || path == [Key("message")]
    || (exists rest :: path == Warnings(rest))
    || (exists i, field, rest :: field in COMMENT_FIELDS && path == CommentField(i, field, rest))
    || (exists i, field, rest :: field in {"path", "reason"} && path == FailureField(i, field, rest))
  }

  ghost predicate PublicToolName(path: Path) {
    exists tool :: tool in PUBLIC_TOOLS && path == [Key("tool_calls"), Key("by_tool"), Key(tool)]
  }

  /** The walk's path test holds exactly at the published places. */
  lemma SinksAreThePublished(path: Path)
    ensures IsSink(path) <==> Published(path)
  {
    if IsSink(path) && path != [Key("message")] {
      if path[0] == Key("warnings") {
        assert path == Warnings(path[1..]);
      } else if path[0] == Key("comments") {
        assert path == CommentField(path[1].position, path[2].name, path[3..]);
      } else {
        assert path[..3][0] == path[0] && path[..3][1] == path[1] && path[..3][2] == path[2];
        assert path == FailureField(path[3].position, path[4].name, path[5..]);
      }
    }
  }

  lemma ToolLabelsAreThePublic(path: Path)
    ensures IsToolLabel(path) <==> PublicToolName(path)
  {
    if IsToolLabel(path) {
      assert path[..2][0] == path[0] && path[..2][1] == path[1];
      assert path == [Key("tool_calls"), Key("by_tool"), Key(path[2].name)];
    }
  }

  // Keys.

  /** The key that ends this path keeps its value: it is published, or it is neither reserved nor
      rejected, except that a public tool name need not be admitted. */
  ghost predicate KeyStays(path: Path, check: Admission)
    requires path != []
  {
    var step := path[|path| - 1];
    || step.Index? || Published(path)
    || (step.name !in PRIVATE_KEYS && (PublicToolName(path) || check(step.name).Admitted?))
  }

  lemma SurvivesExactly(path: Path, check: Admission)
    requires path != []
    ensures Survives(path, check) <==> KeyStays(path, check)
  {
    SinksAreThePublished(path);
    ToolLabelsAreThePublic(path);
  }

  /** Every key on the way stays. */
  ghost predicate WayStays(path: Path, check: Admission) {
    forall n | 0 < n <= |path| :: KeyStays(path[..n], check)
  }

  lemma {:induction false} WaySurvives(base: Path, steps: Path, check: Admission)
    ensures KeysSurvive(base, steps, check) <==>
            forall n | 0 < n <= |steps| :: Survives(base + steps[..n], check)
    decreases |steps|
  {
    hide Survives;
    if steps != [] {
      var next, rest := base + [steps[0]], steps[1..];
      WaySurvives(next, rest, check);
      assert steps[..1] == [steps[0]];
      forall n | 0 < n <= |rest| ensures next + rest[..n] == base + steps[..n + 1] {
        assert steps[..n + 1] == [steps[0]] + rest[..n];
      }
      forall n | 1 < n <= |steps| ensures base + steps[..n] == next + rest[..n - 1] {
        assert steps[..n] == [steps[0]] + rest[..n - 1];
      }
    }
  }

  /** What sanitising leaves at a path: nothing exactly when nothing was there or a key on the way
      was removed; otherwise the rewritten value. */
  lemma LeftAt(payload: Json, path: Path, check: Admission, table: Table)
    ensures At(Rewritten(payload, [], check, table), path) ==
            if WayStays(path, check) then OptionMap(At(payload, path), path, check, table) else None
  {
    hide Survives, KeyStays, Rewritten;
    PathsArePreserved(payload, [], path, check, table);
    WayIsSurvived(path, check);
    assert [] + path == path;
  }

  // The sinks, one by one.

  lemma {:induction false} SinkStays(payload: Json, path: Path, check: Admission, table: Table)
    requires ClosedSink(path)
    ensures At(Rewritten(payload, [], check, table), path) ==
            if WayStays(path, check) then At(payload, path) else None
  {
    hide Survives, KeyStays, IsSink, Untouched;
    LeftAt(payload, path, check, table);
    if At(payload, path).Some? {
      ClosedSinkUntouched(At(payload, path).value, path, check, table);
      UnchangedExactly(At(payload, path).value, path, check, table);
    }
  }

  lemma SinksStayOnTheWay(path: Path, from: nat, check: Admission)
    requires from <= |path| && forall n | from < n <= |path| :: Published(path[..n])
    ensures WayStays(path, check) <==> forall n | 0 < n <= from :: KeyStays(path[..n], check)
  {
    hide PublicToolName;
  }

  /** Warnings are kept as they are, to any depth. */
  lemma WarningsStay(payload: Json, rest: Path, check: Admission, table: Table)
    ensures At(Rewritten(payload, [], check, table), Warnings(rest)) == At(payload, Warnings(rest))
  {
    var path := Warnings(rest);
    SinksAreThePublished(path);
    forall n | 0 < n <= |path| ensures Published(path[..n]) {
      assert path[..n] == Warnings(rest[..n - 1]);
    }
    SinksStayOnTheWay(path, 0, check);
    assert path[0] == Key("warnings");
    SinkStays(payload, path, check, table);
  }

  /** The published fields of every comment are kept as they are, if the list of comments is. */
  lemma CommentFieldsStay(payload: Json, i: nat, field: string, rest: Path, check: Admission, table: Table)
    requires field in COMMENT_FIELDS
    ensures At(Rewritten(payload, [], check, table), CommentField(i, field, rest)) ==
            if check("comments").Admitted? then At(payload, CommentField(i, field, rest)) else None
  {
    var path := CommentField(i, field, rest);
    SinksAreThePublished(path);
    forall n | 2 < n <= |path| ensures Published(path[..n]) {
      assert path[..n] == CommentField(i, field, rest[..n - 3]);
    }
    SinksStayOnTheWay(path, 2, check);
    PlainKeyStays([], "comments", check);
    assert path[..1] == [] + [Key("comments")] && path[..2][1] == Index(i);
    SinkStays(payload, path, check, table);
  }

  /** Path and reason of every failed item are kept as they are, if the coverage list is. */
  lemma FailureTextsStay(payload: Json, i: nat, field: string, rest: Path, check: Admission, table: Table)
    requires field in {"path", "reason"}
    ensures At(Rewritten(payload, [], check, table), FailureField(i, field, rest)) ==
            if check("manifest").Admitted? && check("coverage").Admitted? && check("failed").Admitted?
            then At(payload, FailureField(i, field, rest)) else None
  {
    hide Published, KeyStays, ClosedSink;
    var path := FailureField(i, field, rest);
    forall n | 4 < n <= |path| ensures Published(path[..n]) { FailurePrefix(i, field, rest, n); }
    SinksStayOnTheWay(path, 4, check);
    PlainKeyStays([], "manifest", check);
    PlainKeyStays([Key("manifest")], "coverage", check);
    PlainKeyStays([Key("manifest"), Key("coverage")], "failed", check);
    assert path[..1] == [] + [Key("manifest")] && path[..2] == [Key("manifest")] + [Key("coverage")];
    assert path[..3] == [Key("manifest"), Key("coverage")] + [Key("failed")];
    PositionStays(path[..4], check);
    FailurePrefix(i, field, rest, |path|);
    assert path[..|path|] == path;
    SinkStays(payload, path, check, table);
  }

  lemma FailurePrefix(i: nat, field: string, rest: Path, n: nat)
    requires field in {"path", "reason"} && 4 < n <= |rest| + 5
    ensures Published(FailureField(i, field, rest)[..n]) && ClosedSink(FailureField(i, field, rest)[..n])
  {
    var prefix := FailureField(i, field, rest)[..n];
    assert prefix == FailureField(i, field, rest[..n - 5]);
    assert prefix[0] == Key("manifest");
    SinksAreThePublished(prefix);
  }

  lemma PositionStays(path: Path, check: Admission)
    requires path != [] && path[|path| - 1].Index?
    ensures KeyStays(path, check)
  {
  }

  /** A key of the contract above the sinks stays exactly when it is admitted. */
  lemma PlainKeyStays(base: Path, key: string, check: Admission)
    requires (base, key) in {([], "comments"), ([], "manifest"), ([Key("manifest")], "coverage"),
                             ([Key("manifest"), Key("coverage")], "failed")}
    ensures KeyStays(base + [Key(key)], check) <==> check(key).Admitted?
  {
    SurvivesExactly(base + [Key(key)], check);
  }

  // Every value.

  /** Rejected text at a place that is not published. */
  ghost predicate Replaced(payload: Json, path: Path, check: Admission)
    requires At(payload, path).Some?
  {
    At(payload, path).value.Str? && check(At(payload, path).value.text).Rejected? && !Published(path)
  }

  /** A value that is no container, wherever it stands: gone with a removed key; replaced exactly
      when it is rejected text at a place that is not published; otherwise the same. */
  lemma ScalarAt(payload: Json, path: Path, check: Admission)
    requires payload.Container() && At(payload, path).Some? && !At(payload, path).value.Container()
    ensures WayStays(path, check) && Replaced(payload, path, check) ==>
              At(payload, path).value.text in LeftTable(payload, check)
    ensures var table := LeftTable(payload, check);
            At(Rewritten(payload, [], check, table), path) ==
            if !WayStays(path, check) then None
            else if Replaced(payload, path, check) then Some(Str(table[At(payload, path).value.text]))
            else At(payload, path)
  {
    hide Survives, WayStays, KeyStays, Published, IsSink, LeftTable, TreeTally;
    var v, table := At(payload, path).value, LeftTable(payload, check);
    LeftAt(payload, path, check, table);
    SinksAreThePublished(path);
    if WayStays(path, check) && Replaced(payload, path, check) {
      WayIsSurvived(path, check);
      assert [] + path == path;
      WalkReplaces(payload, [], path, check, v.text);
      LeftTableExact(payload, check);
    }
  }

  lemma WayIsSurvived(path: Path, check: Admission)
    ensures WayStays(path, check) <==> KeysSurvive([], path, check)
  {
    hide Survives, KeyStays;
    WaySurvives([], path, check);
    forall n | 0 < n <= |path| ensures Survives([] + path[..n], check) <==> KeyStays(path[..n], check) {
      assert [] + path[..n] == path[..n];
      SurvivesExactly(path[..n], check);
    }
  }

  /** A scalar message is kept as it is. */
  lemma MessageStays(payload: Json, check: Admission)
    requires payload.Obj? && Get(payload, "message").Some? && !Get(payload, "message").value.Container()
    ensures Get(Rewritten(payload, [], check, LeftTable(payload, check)), "message") == Get(payload, "message")
  {
    hide Survives, LeftTable;
    var path := [Key("message")];
    assert path[1..] == [];
    ScalarAt(payload, path, check);
    assert path[..1] == path && Published(path);
    GetRewritten(payload, [], "message", check, LeftTable(payload, check));
  }

  /** Nothing is left below a reserved key, or below a rejected key, outside the published places. */
  lemma RemovedKeys(payload: Json, base: Path, key: string, rest: Path, check: Admission, table: Table)
    requires var at := base + [Key(key)];
             && !Published(at)
             && (key in PRIVATE_KEYS || (check(key).Rejected? && !PublicToolName(at)))
    ensures At(Rewritten(payload, [], check, table), base + [Key(key)] + rest) == None
  {
    hide Survives, Published, PublicToolName;
    var path, n := base + [Key(key)] + rest, |base| + 1;
    LeftAt(payload, path, check, table);
    assert path[..n] == base + [Key(key)] && !KeyStays(path[..n], check);
  }
}
