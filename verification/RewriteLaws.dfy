/** Laws of the rewrite: what stays in place, and what publication sinks keep. */
module RewriteLaws {
  import opened Json
  import opened Rewrite

  /** The value reached from `v` by following a path downwards. */
  function At(v: Json, steps: Path): Option<Json>
    decreases |steps|
  {
    if steps == [] then Some(v)
    else match steps[0]
      case Key(k) =>
        if v.Obj? && Get(v, k).Some? then At(Get(v, k).value, steps[1..]) else None
      case Index(i) =>
        if v.Arr? && i < |v.items| then At(v.items[i], steps[1..]) else None
  }

  /** No key on the way from `base` down `steps` is dropped. */
  predicate KeysSurvive(base: Path, steps: Path, check: Admission)
    decreases |steps|
  {
    steps == [] ||
    (Survives(base + [steps[0]], check) && KeysSurvive(base + [steps[0]], steps[1..], check))
  }

  function OptionMap(v: Option<Json>, path: Path, check: Admission, table: Table): Option<Json> {
    match v
    case None => None
    case Some(w) => Some(Rewritten(w, path, check, table))
  }

  lemma {:induction false} RetainedList(v: Json, path: Path, n: nat, check: Admission)
    requires v.Arr? && n <= |v.items|
    ensures Retained(v, path, n, check) == seq(n, i requires 0 <= i < n => Kid(Index(i), v.items[i]))
  {
    if n > 0 {
      RetainedList(v, path, n - 1, check);
    }
  }

  /** Lists keep their length, and every item is rewritten at its own position. */
  lemma ListsKeepLength(v: Json, path: Path, check: Admission, table: Table)
    requires v.Arr?
    ensures Rewritten(v, path, check, table).Arr?
    ensures |Rewritten(v, path, check, table).items| == |v.items|
    ensures forall i | 0 <= i < |v.items| ::
              Rewritten(v, path, check, table).items[i] == Rewritten(v.items[i], path + [Index(i)], check, table)
  {
    RetainedList(v, path, |v.items|, check);
  }

  lemma {:induction false} FindAppend(a: seq<Field>, b: seq<Field>, key: string)
    ensures Find(a + b, key) == if Find(a, key).Some? then Find(a, key) else Find(b, key)
  {
    if a == [] {
      assert a + b == b;
    } else {
      assert (a + b)[1..] == a[1..] + b;
      FindAppend(a[1..], b, key);
    }
  }

  /** The rewritten fields of the first `n` input fields. */
  function RewrittenFields(v: Json, path: Path, n: nat, check: Admission, table: Table): seq<Field>
    requires v.Obj? && n <= |v.fields|
  {
    var kids := Retained(v, path, n, check);
    seq(|kids|, k requires 0 <= k < |kids| =>
      Field(if kids[k].step.Key? then kids[k].step.name else "",
            Rewritten(kids[k].value, path + [kids[k].step], check, table)))
  }

  lemma {:induction false} FindRewritten(v: Json, path: Path, n: nat, key: string, check: Admission, table: Table)
    requires v.Obj? && n <= |v.fields|
    ensures Find(RewrittenFields(v, path, n, check, table), key) ==
            if Survives(path + [Key(key)], check)
            then OptionMap(Find(v.fields[..n], key), path + [Key(key)], check, table)
            else None
  {
    hide Rewritten, Survives;
    if n > 0 {
      FindRewritten(v, path, n - 1, key, check, table);
      var field := v.fields[n - 1];
      var step := Key(field.key);
      assert v.fields[..n] == v.fields[..n - 1] + [field];
      FindAppend(v.fields[..n - 1], [field], key);
      var before := RewrittenFields(v, path, n - 1, check, table);
      if Survives(path + [step], check) {
        var last := Field(field.key, Rewritten(field.value, path + [step], check, table));
        assert RewrittenFields(v, path, n, check, table) == before + [last];
        FindAppend(before, [last], key);
      } else {
        assert RewrittenFields(v, path, n, check, table) == before;
      }
    }
  }

  /** Looking up a key after the rewrite: the rewritten value, unless the key was dropped. */
  lemma GetRewritten(v: Json, path: Path, key: string, check: Admission, table: Table)
    requires v.Obj?
    ensures Rewritten(v, path, check, table).Obj?
    ensures Get(Rewritten(v, path, check, table), key) ==
            if Survives(path + [Key(key)], check)
            then OptionMap(Get(v, key), path + [Key(key)], check, table)
            else None
  {
    FindRewritten(v, path, |v.fields|, key, check, table);
    assert v.fields[..|v.fields|] == v.fields;
    assert Rewritten(v, path, check, table).fields == RewrittenFields(v, path, |v.fields|, check, table);
  }

  /** The rewrite moves nothing: under surviving keys every path leads to the rewritten value
      of what it led to before, and nowhere else. */
  lemma {:induction false} PathsArePreserved(v: Json, base: Path, steps: Path, check: Admission, table: Table)
    ensures At(Rewritten(v, base, check, table), steps) ==
            if KeysSurvive(base, steps, check)
            then OptionMap(At(v, steps), base + steps, check, table)
            else None
    decreases |steps|
  {
    if steps == [] {
      assert base + steps == base;
    } else {
      var next := base + [steps[0]];
      assert next + steps[1..] == base + steps;
      match steps[0]
      case Key(k) =>
        if v.Obj? {
          GetRewritten(v, base, k, check, table);
          if Get(v, k).Some? {
            PathsArePreserved(Get(v, k).value, next, steps[1..], check, table);
          }
        }
      case Index(i) =>
        if v.Arr? {
          ListsKeepLength(v, base, check, table);
          if i < |v.items| {
            PathsArePreserved(v.items[i], next, steps[1..], check, table);
          }
        }
    }
  }

  /** Sink paths all of whose extensions are sink paths too. */
  predicate ClosedSink(path: Path) {
    IsSink(path) && path != [Key("message")]
  }

  lemma ClosedSinkExtends(path: Path, step: Step)
    requires ClosedSink(path)
    ensures ClosedSink(path + [step])
  {
    var longer := path + [step];
    assert longer[0] == path[0];
    if |path| >= 5 {
      assert longer[..3] == path[..3];
    }
  }

  /** Nothing below `v` is dropped, and no text below it is replaced by another text. */
  predicate Untouched(v: Json, path: Path, check: Admission, table: Table)
    decreases v
  {
    if v.Container() then
      forall i | 0 <= i < Width(v) ::
        && Survives(path + [StepAt(v, i)], check)
        && Untouched(ChildAt(v, i), path + [StepAt(v, i)], check, table)
    else RewriteLeaf(v, path, check, table) == v
  }

  lemma {:induction false} RetainedCount(v: Json, path: Path, n: nat, check: Admission)
    requires v.Container() && n <= Width(v)
    ensures |Retained(v, path, n, check)| == n <==>
            forall i | 0 <= i < n :: Survives(path + [StepAt(v, i)], check)
    ensures |Retained(v, path, n, check)| == n ==>
            Retained(v, path, n, check) == seq(n, i requires 0 <= i < n => Kid(StepAt(v, i), ChildAt(v, i)))
  {
    hide Survives;
    if n > 0 {
      RetainedCount(v, path, n - 1, check);
    }
  }

  /** The rewrite is the identity exactly on untouched values. */
  lemma {:induction false} UnchangedExactly(v: Json, path: Path, check: Admission, table: Table)
    ensures Rewritten(v, path, check, table) == v <==> Untouched(v, path, check, table)
    decreases v
  {
    if v.Container() {
      RetainedCount(v, path, Width(v), check);
      var kids, w := AllRetained(v, path, check), Rewritten(v, path, check, table);
      if |kids| == Width(v) {
        forall i | 0 <= i < Width(v)
          ensures ChildAt(w, i) == ChildAt(v, i) <==>
                  Untouched(ChildAt(v, i), path + [StepAt(v, i)], check, table)
        {
          UnchangedExactly(ChildAt(v, i), path + [StepAt(v, i)], check, table);
        }
        if Untouched(v, path, check, table) {
          SameChildren(v, w);
        }
      }
    }
  }

  lemma SameChildren(v: Json, w: Json)
    requires v.Container() && w.Container() && v.Arr? == w.Arr? && Width(v) == Width(w)
    requires forall i | 0 <= i < Width(v) :: StepAt(v, i) == StepAt(w, i) && ChildAt(v, i) == ChildAt(w, i)
    ensures v == w
  {
    if v.Arr? {
      forall i | 0 <= i < |v.items| ensures v.items[i] == w.items[i] {
        assert ChildAt(v, i) == ChildAt(w, i);
      }
      assert v.items == w.items;
    } else {
      forall i | 0 <= i < |v.fields| ensures v.fields[i] == w.fields[i] {
        assert StepAt(v, i) == StepAt(w, i) && ChildAt(v, i) == ChildAt(w, i);
      }
      assert v.fields == w.fields;
    }
  }

  /** Everything below a closed sink path is untouched. */
  lemma {:induction false} ClosedSinkUntouched(v: Json, path: Path, check: Admission, table: Table)
    requires ClosedSink(path)
    ensures Untouched(v, path, check, table)
    decreases v
  {
    if v.Container() {
      forall i | 0 <= i < Width(v)
        ensures Survives(path + [StepAt(v, i)], check)
        ensures Untouched(ChildAt(v, i), path + [StepAt(v, i)], check, table)
      {
        ClosedSinkExtends(path, StepAt(v, i));
        ClosedSinkUntouched(ChildAt(v, i), path + [StepAt(v, i)], check, table);
      }
    }
  }

  /** A value at a publication sink is unchanged wherever its ancestor keys survive, with one
      exception: a `message` that is an object or a list is walked like any other value, and
      stays the same exactly when nothing in it is dropped or replaced. */
  lemma SinksUnchanged(payload: Json, sink: Path, check: Admission, table: Table)
    requires IsSink(sink) && KeysSurvive([], sink, check) && At(payload, sink).Some?
    ensures At(Rewritten(payload, [], check, table), sink) == At(payload, sink) <==>
            (ClosedSink(sink) || !At(payload, sink).value.Container()
             || Untouched(At(payload, sink).value, sink, check, table))
  {
    var v := At(payload, sink).value;
    PathsArePreserved(payload, [], sink, check, table);
    assert [] + sink == sink;
    UnchangedExactly(v, sink, check, table);
    if ClosedSink(sink) {
      ClosedSinkUntouched(v, sink, check, table);
    }
  }

  /** The exception is real: text inside a structured message is replaced. */
  lemma StructuredMessageIsRewritten(check: Admission, secret: string, mark: string)
    requires check(secret).Rejected? && mark != secret
    ensures var payload := Obj([Field("message", Arr([Str(secret)]))]);
            var table := map[secret := mark];
            && At(payload, [Key("message")]) == Some(Arr([Str(secret)]))
            && At(Rewritten(payload, [], check, table), [Key("message")]) == Some(Arr([Str(mark)]))
  {
    var message := Arr([Str(secret)]);
    var payload := Obj([Field("message", message)]);
    var table := map[secret := mark];
    PathsArePreserved(payload, [], [Key("message")], check, table);
    assert [Key("message")][1..] == [];
    assert [] + [Key("message")] == [Key("message")];
    ListsKeepLength(message, [Key("message")], check, table);
    assert Rewritten(message, [Key("message")], check, table).items == [Str(mark)];
  }

  lemma UnionSize(a: set<string>, b: set<string>)
    ensures |a + b| <= |a| + |b|
  {
    assert a + b == a + (b - a);
    assert |b| == |b - a| + |b * a| by { assert b == (b - a) + (b * a); }
  }

  lemma PlusReplaced(a: Tally, b: Tally)
    ensures |Plus(a, b).replaced| <= |a.replaced| + |b.replaced|
  {
    UnionSize(a.replaced, b.replaced);
  }

  lemma OwnReplaced(v: Json, path: Path, check: Admission)
    requires |path| > 0
    ensures |OwnTally(v, path, check).replaced| <= 1
  {
  }

  lemma ReplacedStep(v: Json, path: Path, n: nat, check: Admission)
    requires v.Container() && 0 < n <= Width(v)
    requires |KidsTally(v, path, n - 1, check).replaced| <= KidsSize(v, n - 1)
    requires var child, at := ChildAt(v, n - 1), path + [StepAt(v, n - 1)];
             child.Container() ==> |TreeTally(child, at, check).replaced| < Size(child)
    ensures |KidsTally(v, path, n, check).replaced| <= KidsSize(v, n)
  {
    hide Survives, Plus, Size;
    var child, at := ChildAt(v, n - 1), path + [StepAt(v, n - 1)];
    var before := KidsTally(v, path, n - 1, check);
    if child.Container() && Survives(at, check) {
      PlusReplaced(before, TreeTally(child, at, check));
    } else {
      OwnReplaced(child, at, check);
      PlusReplaced(before, OwnTally(child, at, check));
    }
  }

  /** A walk replaces at most one text per value below the root. */
  lemma {:induction false} TreeReplaced(v: Json, path: Path, check: Admission)
    requires v.Container()
    ensures |TreeTally(v, path, check).replaced| < Size(v)
    decreases v, Width(v) + 1
  {
    KidsReplaced(v, path, Width(v), check);
  }

  lemma {:induction false} KidsReplaced(v: Json, path: Path, n: nat, check: Admission)
    requires v.Container() && n <= Width(v)
    ensures |KidsTally(v, path, n, check).replaced| <= KidsSize(v, n)
    decreases v, n
  {
    if n == 0 { return; }
    hide KidsTally, KidsSize, TreeTally, Size;
    KidsReplaced(v, path, n - 1, check);
    if ChildAt(v, n - 1).Container() {
      TreeReplaced(ChildAt(v, n - 1), path + [StepAt(v, n - 1)], check);
    }
    ReplacedStep(v, path, n, check);
  }

  /** The table a walk leaves behind is no larger than the payload. */
  lemma TableBounded(payload: Json, check: Admission, table: Table)
    requires payload.Obj? && table.Keys == TreeTally(payload, [], check).replaced
    ensures |table| < Size(payload)
  {
    TreeReplaced(payload, [], check);
    assert |table| == |table.Keys|;
  }

  /** Text that must be replaced is replaced by the walk, wherever surviving keys lead to it. */
  lemma {:induction false} WalkReplaces(v: Json, base: Path, steps: Path, check: Admission, text: string)
    requires v.Container() && steps != [] && KeysSurvive(base, steps, check)
    requires At(v, steps) == Some(Str(text)) && MustReplace(Str(text), base + steps, check)
    ensures text in TreeTally(v, base, check).replaced
    decreases |steps|
  {
    hide TreeTally, KidsTally, MustReplace;
    var i := ChildNamed(v, steps);
    var at, child := base + [steps[0]], ChildAt(v, i);
    assert at + steps[1..] == base + steps;
    if |steps| > 1 {
      assert child.Container();
      WalkReplaces(child, at, steps[1..], check, text);
    } else {
      assert at == base + steps && child == Str(text);
    }
    TallyHolds(v, base, Width(v), i, check, text);
    WholeTally(v, base, check);
  }

  lemma WholeTally(v: Json, path: Path, check: Admission)
    requires v.Container()
    ensures TreeTally(v, path, check) == KidsTally(v, path, Width(v), check)
  {
  }

  /** The child that a path enters first. */
  lemma ChildNamed(v: Json, steps: Path) returns (i: nat)
    requires v.Container() && steps != [] && At(v, steps).Some?
    ensures i < Width(v) && StepAt(v, i) == steps[0] && At(v, steps) == At(ChildAt(v, i), steps[1..])
  {
    match steps[0]
    case Key(k) => i := FirstField(v.fields, k);
    case Index(n) => i := n;
  }

  lemma {:induction false} FirstField(fields: seq<Field>, key: string) returns (i: nat)
    requires Find(fields, key).Some?
    ensures i < |fields| && fields[i] == Field(key, Find(fields, key).value)
  {
    i := 0;
    if fields[0].key != key {
      i := FirstField(fields[1..], key);
      i := i + 1;
    }
  }

  /** What one surviving child replaces is part of the tally of its parent. */
  lemma {:induction false} TallyHolds(v: Json, path: Path, n: nat, i: nat, check: Admission, text: string)
    requires v.Container() && i < n <= Width(v) && Survives(path + [StepAt(v, i)], check)
    requires var child, at := ChildAt(v, i), path + [StepAt(v, i)];
             if child.Container() then text in TreeTally(child, at, check).replaced
             else child == Str(text) && MustReplace(child, at, check)
    ensures text in KidsTally(v, path, n, check).replaced
    decreases n
  {
    hide TreeTally;
    if i < n - 1 { TallyHolds(v, path, n - 1, i, check, text); }
  }

  /** Only rejected text is replaced. */
  lemma {:induction false} ReplacedIsRejected(v: Json, path: Path, check: Admission, text: string)
    requires v.Container()
    ensures text in TreeTally(v, path, check).replaced ==> check(text).Rejected?
    decreases v, Width(v) + 1
  {
    hide KidsTally;
    KidsRejected(v, path, Width(v), check, text);
  }

  lemma {:induction false} KidsRejected(v: Json, path: Path, n: nat, check: Admission, text: string)
    requires v.Container() && n <= Width(v)
    ensures text in KidsTally(v, path, n, check).replaced ==> check(text).Rejected?
    decreases v, n
  {
    hide TreeTally;
    if n > 0 {
      KidsRejected(v, path, n - 1, check, text);
      if ChildAt(v, n - 1).Container() {
        ReplacedIsRejected(ChildAt(v, n - 1), path + [StepAt(v, n - 1)], check, text);
      }
    }
  }

  /** The walk meets exactly the texts that its tally replaces. */
  lemma {:induction false} WalkTextsExact(v: Json, path: Path, check: Admission, text: string)
    requires v.Container()
    ensures text in WalkTexts(v, path, check) <==> text in TreeTally(v, path, check).replaced
    decreases v, Width(v) + 1
  {
    hide OwnTexts, LaterTexts, KidsTally;
    KidsTextsExact(v, path, Width(v), check, text);
  }

  lemma {:induction false} KidsTextsExact(v: Json, path: Path, n: nat, check: Admission, text: string)
    requires v.Container() && n <= Width(v)
    ensures text in OwnTexts(v, path, n, check) || text in LaterTexts(v, path, n, check) <==>
            text in KidsTally(v, path, n, check).replaced
    decreases v, n
  {
    hide WalkTexts, TreeTally, KidsTally, OwnTexts, LaterTexts, Survives;
    if n == 0 {
      NothingTallied(v, path, check);
    } else {
      KidsTextsExact(v, path, n - 1, check, text);
      if ChildAt(v, n - 1).Container() {
        WalkTextsExact(ChildAt(v, n - 1), path + [StepAt(v, n - 1)], check, text);
      }
      TextsStep(v, path, n, check, text);
      TallyStep(v, path, n, check, text);
    }
  }

  lemma NothingTallied(v: Json, path: Path, check: Admission)
    requires v.Container()
    ensures KidsTally(v, path, 0, check).replaced == {}
    ensures OwnTexts(v, path, 0, check) == [] && LaterTexts(v, path, 0, check) == []
  {
  }

  /** The texts that item `n - 1` adds. */
  predicate AddsText(v: Json, path: Path, n: nat, check: Admission, text: string)
    requires v.Container() && 0 < n <= Width(v)
  {
    var child, at := ChildAt(v, n - 1), path + [StepAt(v, n - 1)];
    Survives(at, check)
    && if child.Container() then text in WalkTexts(child, at, check)
       else MustReplace(child, at, check) && child.text == text
  }

  lemma TextsStep(v: Json, path: Path, n: nat, check: Admission, text: string)
    requires v.Container() && 0 < n <= Width(v)
    ensures text in OwnTexts(v, path, n, check) || text in LaterTexts(v, path, n, check) <==>
            (|| text in OwnTexts(v, path, n - 1, check) || text in LaterTexts(v, path, n - 1, check)
             || AddsText(v, path, n, check, text))
  {
    hide Survives, WalkTexts;
  }

  lemma TallyStep(v: Json, path: Path, n: nat, check: Admission, text: string)
    requires v.Container() && 0 < n <= Width(v)
    requires var child, at := ChildAt(v, n - 1), path + [StepAt(v, n - 1)];
             child.Container() ==>
               (text in WalkTexts(child, at, check) <==> text in TreeTally(child, at, check).replaced)
    ensures text in KidsTally(v, path, n, check).replaced <==>
            text in KidsTally(v, path, n - 1, check).replaced || AddsText(v, path, n, check, text)
  {
    hide WalkTexts, TreeTally, IsSink, IsToolLabel;
  }

  /** The table the walk leaves numbers exactly the replaced texts. */
  lemma LeftTableExact(payload: Json, check: Admission)
    requires payload.Container()
    ensures var table := LeftTable(payload, check);
            Numbered(table) && table.Keys == TreeTally(payload, [], check).replaced
  {
    hide WalkTexts, TreeTally, NumberingOf, Numbered;
    NumberingIsNumbered(WalkTexts(payload, [], check));
    forall t ensures t in WalkTexts(payload, [], check) <==> t in TreeTally(payload, [], check).replaced {
      WalkTextsExact(payload, [], check, t);
    }
  }
}
