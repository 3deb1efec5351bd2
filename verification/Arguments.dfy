/** Several independent scanners of one argument vector, and why they agree. */
module Arguments {
  import opened Json
  import opened PyText

  type Args = seq<string>

  predicate Dash(item: string) { StartsWith(item, "-") }

  // The scanners as functions of the vector.

  predicate IsName(item: string, name: string, short: Option<string>) {
    item == name || short == Some(item)
  }

  predicate IsInline(item: string, name: string) { StartsWith(item, name + "=") }

  function InlineValue(item: string, name: string): string
    requires IsInline(item, name)
  {
    item[|name| + 1..]
  }

  function Prepend<T>(first: T, rest: Result<seq<T>>): Result<seq<T>> {
    if rest.Ok? then Ok([first] + rest.value) else Err
  }

  function Scan(args: Args, name: string, short: Option<string>): Result<seq<string>>
    decreases |args|
  {
    if args == [] then Ok([])
    else if IsName(args[0], name, short) then
      if |args| < 2 || Dash(args[1]) then Err else Prepend(args[1], Scan(args[2..], name, short))
    else if IsInline(args[0], name) then
      if InlineValue(args[0], name) == "" then Err
      else Prepend(InlineValue(args[0], name), Scan(args[1..], name, short))
    else Scan(args[1..], name, short)
  }

  function One(args: Args, name: string, short: Option<string>): Result<Option<string>> {
    var values := Scan(args, name, short);
    if values.Err? || |values.value| > 1 then Err
    else Ok(if values.value == [] then None else Some(values.value[0]))
  }

  predicate Selects(item: string) { item == "--from" || item == "--to" || item == "--commit" || item == "-c" }

  predicate SelectsInline(item: string) {
    IsInline(item, "--from") || IsInline(item, "--to") || IsInline(item, "--commit")
  }

  function Rest(args: Args, n: nat): Args { if n <= |args| then args[n..] else [] }

  function WithoutDiff(args: Args): Args
    decreases |args|
  {
    if args == [] then []
    else if Selects(args[0]) then WithoutDiff(Rest(args, 2))
    else if SelectsInline(args[0]) then WithoutDiff(args[1..])
    else [args[0]] + WithoutDiff(args[1..])
  }

  datatype Refs = Refs(base: string, head: string)

  function ReviewRefs(args: Args): Result<Refs> {
    var base, head, commit := One(args, "--from", None), One(args, "--to", None), One(args, "--commit", Some("-c"));
    if base.Err? || head.Err? || commit.Err? then Err
    else if commit.value.Some? then
      if base.value.Some? || head.value.Some? then Err
      else Ok(Refs(commit.value.value + "^", commit.value.value))
    else if base.value.None? || head.value.None? then Err
    else Ok(Refs(base.value.value, head.value.value))
  }

  datatype Replacement = Replacement(args: Args, matches: nat)

  function Push(items: Args, matches: nat, rest: Result<Replacement>): Result<Replacement> {
    if rest.Ok? then Ok(Replacement(items + rest.value.args, matches + rest.value.matches)) else Err
  }

  /** The walk over rule arguments, before it asks for exactly one match. */
  function ReplaceWalk(args: Args, was: string, becomes: string): Result<Replacement>
    decreases |args|
  {
    if args == [] then Ok(Replacement([], 0))
    else if args[0] == "--rule" then
      if |args| < 2 then Err
      else
        var same := args[1] == was;
        Push([args[0], if same then becomes else args[1]], if same then 1 else 0, ReplaceWalk(args[2..], was, becomes))
    else if IsInline(args[0], "--rule") then
      var same := InlineValue(args[0], "--rule") == was;
      Push([if same then "--rule=" + becomes else args[0]], if same then 1 else 0, ReplaceWalk(args[1..], was, becomes))
    else Push([args[0]], 0, ReplaceWalk(args[1..], was, becomes))
  }

  function ReplaceRule(args: Args, was: string, becomes: string): Result<Args> {
    var walk := ReplaceWalk(args, was, becomes);
    if walk.Ok? && walk.value.matches == 1 then Ok(walk.value.args) else Err
  }

  // The index loops that compute them.

  method OptionValues(args: Args, name: string, short: Option<string>) returns (r: Result<seq<string>>)
    ensures r == Scan(args, name, short)
  {
    var values, index := [], 0;
    assert args[0..] == args;
    BeforeNothing(Scan(args, name, short));
    while index < |args|
      invariant index <= |args|
      invariant Scan(args, name, short) == Before(values, Scan(args[index..], name, short))
    {
      var argument := args[index];
      if argument == name || short == Some(argument) {
        if index + 1 >= |args| || Dash(args[index + 1]) { return Err; }
        BeforeStep(values, args[index + 1], Scan(args[index + 2..], name, short));
        values := values + [args[index + 1]];
        assert args[index..][2..] == args[index + 2..];
        index := index + 2;
      } else {
        assert args[index..][1..] == args[index + 1..];
        if IsInline(argument, name) {
          var value := argument[|name| + 1..];
          if value == "" { return Err; }
          BeforeStep(values, value, Scan(args[index + 1..], name, short));
          values := values + [value];
        }
        index := index + 1;
      }
    }
    assert values + [] == values;
    return Ok(values);
  }

  function Before<T>(values: seq<T>, rest: Result<seq<T>>): Result<seq<T>> {
    if rest.Ok? then Ok(values + rest.value) else Err
  }

  lemma BeforeNothing<T>(rest: Result<seq<T>>)
    ensures Before([], rest) == rest
  {
    if rest.Ok? { assert [] + rest.value == rest.value; }
  }

  lemma BeforeStep<T>(values: seq<T>, x: T, rest: Result<seq<T>>)
    ensures Before(values, Prepend(x, rest)) == Before(values + [x], rest)
  {
    if rest.Ok? { assert values + ([x] + rest.value) == values + [x] + rest.value; }
  }

  lemma PushNothing(rest: Result<Replacement>)
    ensures Push([], 0, rest) == rest
  {
    if rest.Ok? { assert [] + rest.value.args == rest.value.args; }
  }

  lemma PushStep(a: Args, m: nat, b: Args, n: nat, rest: Result<Replacement>)
    ensures Push(a, m, Push(b, n, rest)) == Push(a + b, m + n, rest)
  {
    if rest.Ok? { assert a + (b + rest.value.args) == a + b + rest.value.args; }
  }

  method WithoutDiffOptions(args: Args) returns (remaining: Args)
    ensures remaining == WithoutDiff(args)
  {
    hide WithoutDiff, Selects, SelectsInline, Rest;
    remaining := [];
    var index := 0;
    WholeRest(args);
    while index < |args|
      invariant WithoutDiff(args) == remaining + WithoutDiff(Rest(args, index))
    {
      var item := args[index];
      WithoutDiffStep(args, index);
      if Selects(item) {
        index := index + 2;
      } else {
        if !SelectsInline(item) { remaining := remaining + [item]; }
        index := index + 1;
      }
    }
    NoRest(args, index);
  }

  lemma WholeRest(args: Args)
    ensures Rest(args, 0) == args
  {
  }

  lemma NoRest(args: Args, index: nat)
    requires index >= |args|
    ensures WithoutDiff(Rest(args, index)) == []
  {
  }

  /** One turn of the loop, on the arguments that are left. */
  lemma WithoutDiffStep(args: Args, index: nat)
    requires index < |args|
    ensures WithoutDiff(Rest(args, index)) ==
            if Selects(args[index]) then WithoutDiff(Rest(args, index + 2))
            else (if SelectsInline(args[index]) then [] else [args[index]]) + WithoutDiff(Rest(args, index + 1))
  {
    hide Selects, SelectsInline;
    var rest := Rest(args, index);
    assert Rest(rest, 2) == Rest(args, index + 2) && rest[1..] == Rest(args, index + 1);
    assert [] + WithoutDiff(rest[1..]) == WithoutDiff(rest[1..]);
  }

  method ReplaceRuleArgument(args: Args, was: string, becomes: string) returns (r: Result<Args>)
    ensures r == ReplaceRule(args, was, becomes)
  {
    var replaced, index, matches := [], 0, 0;
    assert args[0..] == args;
    PushNothing(ReplaceWalk(args, was, becomes));
    while index < |args|
      invariant index <= |args|
      invariant ReplaceWalk(args, was, becomes) == Push(replaced, matches, ReplaceWalk(args[index..], was, becomes))
    {
      var item := args[index];
      if item == "--rule" {
        if index + 1 >= |args| { return Err; }
        var value := args[index + 1];
        var items, hit := [item, if value == was then becomes else value], if value == was then 1 else 0;
        PushStep(replaced, matches, items, hit, ReplaceWalk(args[index + 2..], was, becomes));
        assert args[index..][2..] == args[index + 2..];
        replaced, matches, index := replaced + items, matches + hit, index + 2;
      } else {
        var same := IsInline(item, "--rule") && InlineValue(item, "--rule") == was;
        var items, hit := [if same then "--rule=" + becomes else item], if same then 1 else 0;
        PushStep(replaced, matches, items, hit, ReplaceWalk(args[index + 1..], was, becomes));
        assert args[index..][1..] == args[index + 1..];
        replaced, matches, index := replaced + items, matches + hit, index + 1;
      }
    }
    if matches != 1 { return Err; }
    assert replaced + [] == replaced;
    return Ok(replaced);
  }

  // The four flags the scanners know.

  datatype Flag = From | To | Commit | Rule

  function Long(f: Flag): string {
    match f
    case From => "--from"
    case To => "--to"
    case Commit => "--commit"
    case Rule => "--rule"
  }

  function Short(f: Flag): Option<string> { if f.Commit? then Some("-c") else None }

  predicate Named(item: string, f: Flag) { IsName(item, Long(f), Short(f)) }

  predicate Inline(item: string, f: Flag) { IsInline(item, Long(f)) }

  function Values(args: Args, f: Flag): Result<seq<string>> { Scan(args, Long(f), Short(f)) }

  /** Every scan that the runner makes of this vector succeeds. */
  predicate Scannable(args: Args) { forall f: Flag :: Values(args, f).Ok? }

  /** No item means something to two scanners. */
  lemma OneMeaning(item: string, f: Flag, g: Flag)
    requires Named(item, f) || Inline(item, f)
    ensures Dash(item) && !(Named(item, f) && Inline(item, f))
    ensures f != g ==> !Named(item, g) && !Inline(item, g)
  {
    Third(item, f);
    Third(item, g);
  }

  /** The third character tells the long names apart. */
  function Key(f: Flag): char { Long(f)[2] }

  lemma Third(item: string, f: Flag)
    ensures Inline(item, f) ==> |item| > |Long(f)| >= 4 && item[2] == Key(f) && item[0] == '-'
    ensures Named(item, f) ==> item == "-c" || (item == Long(f) && |item| >= 4 && item[2] == Key(f) && item[0] == '-')
    ensures forall g: Flag | Key(f) == Key(g) :: f == g
  {
    if Inline(item, f) {
      assert item[..|Long(f)| + 1] == Long(f) + "=";
      assert item[2] == (Long(f) + "=")[2] && item[0] == (Long(f) + "=")[0];
    }
  }

  lemma SelectorFlags(item: string)
    ensures Selects(item) <==> Named(item, From) || Named(item, To) || Named(item, Commit)
    ensures SelectsInline(item) <==> Inline(item, From) || Inline(item, To) || Inline(item, Commit)
  {
  }

  /** An item that is no option is passed over by every scanner. */
  lemma PassesOver(item: string, rest: Args, f: Flag)
    requires !Named(item, f) && !Inline(item, f)
    ensures Values([item] + rest, f) == Values(rest, f)
  {
    assert ([item] + rest)[1..] == rest;
  }

  lemma PlainIsNoFlag(item: string, f: Flag)
    requires !Dash(item)
    ensures !Named(item, f) && !Inline(item, f)
  {
    if Named(item, f) || Inline(item, f) { OneMeaning(item, f, f); }
  }

  /** Under a successful scan, a named option stands before its value and both scanners of the
      other flags pass over the pair. */
  lemma NamedPair(args: Args, f: Flag)
    requires Scannable(args) && args != [] && Named(args[0], f)
    ensures |args| >= 2 && !Dash(args[1]) && Scannable(args[2..])
    ensures Values(args, f) == Prepend(args[1], Values(args[2..], f))
    ensures forall g: Flag | g != f :: Values(args, g) == Values(args[2..], g)
  {
    assert Values(args, f).Ok?;
    forall g: Flag | g != f ensures Values(args, g) == Values(args[2..], g) {
      OneMeaning(args[0], f, g);
      PlainIsNoFlag(args[1], g);
      PassesOver(args[0], args[1..], g);
      PassesOver(args[1], args[2..], g);
      assert args == [args[0]] + args[1..] && args[1..] == [args[1]] + args[2..];
    }
    forall g: Flag ensures Values(args[2..], g).Ok? { assert Values(args, g).Ok?; }
  }

  lemma InlineOne(args: Args, f: Flag)
    requires Scannable(args) && args != [] && Inline(args[0], f)
    ensures Scannable(args[1..]) && InlineValue(args[0], Long(f)) != ""
    ensures Values(args, f) == Prepend(InlineValue(args[0], Long(f)), Values(args[1..], f))
    ensures forall g: Flag | g != f :: Values(args, g) == Values(args[1..], g)
  {
    assert Values(args, f).Ok?;
    OneMeaning(args[0], f, f);
    forall g: Flag | g != f ensures Values(args, g) == Values(args[1..], g) {
      OneMeaning(args[0], f, g);
    }
    forall g: Flag ensures Values(args[1..], g).Ok? { assert Values(args, g).Ok?; }
  }

  predicate Plain(item: string) { forall f: Flag :: !Named(item, f) && !Inline(item, f) }

  lemma PlainOne(args: Args)
    requires Scannable(args) && args != [] && Plain(args[0])
    ensures Scannable(args[1..]) && forall g: Flag :: Values(args, g) == Values(args[1..], g)
  {
    forall g: Flag ensures Values(args, g) == Values(args[1..], g) && Values(args[1..], g).Ok? {
      assert Values(args, g).Ok? && !Named(args[0], g);
      PassesOver(args[0], args[1..], g);
      assert args == [args[0]] + args[1..];
    }
  }

  /** Removing the diff selectors removes all of them and nothing the rule scanner sees. */
  lemma {:induction false} NoSelectorRemains(args: Args)
    requires Scannable(args)
    ensures var w := WithoutDiff(args);
            && Values(w, Rule) == Values(args, Rule)
            && (forall f: Flag | f != Rule :: Values(w, f) == Ok([]))
    decreases |args|
  {
    hide Named, Inline, Selects, SelectsInline, Scan;
    if args == [] {
      NothingToScan();
    } else {
      SelectorFlags(args[0]);
      if f: Flag :| Named(args[0], f) {
        NamedPair(args, f);
        NoSelectorRemains(args[2..]);
        if f == Rule { KeepsRulePair(args); } else { RemovesPair(args, f); }
      } else if f: Flag :| Inline(args[0], f) {
        InlineOne(args, f);
        NoSelectorRemains(args[1..]);
        if f == Rule { KeepsRuleItem(args); } else { RemovesItem(args, f); }
      } else {
        PlainOne(args);
        NoSelectorRemains(args[1..]);
        forall f: Flag ensures Values([args[0]] + WithoutDiff(args[1..]), f) == Values(WithoutDiff(args[1..]), f) {
          PassesOver(args[0], WithoutDiff(args[1..]), f);
        }
      }
    }
  }

  lemma NothingToScan()
    ensures forall f: Flag :: Values([], f) == Ok([])
  {
  }

  lemma RemovesPair(args: Args, f: Flag)
    requires |args| >= 2 && Named(args[0], f) && f != Rule
    ensures WithoutDiff(args) == WithoutDiff(args[2..])
  {
    SelectorFlags(args[0]);
  }

  lemma RemovesItem(args: Args, f: Flag)
    requires |args| >= 1 && Inline(args[0], f) && f != Rule
    ensures WithoutDiff(args) == WithoutDiff(args[1..])
  {
    SelectorFlags(args[0]);
    OneMeaning(args[0], f, f);
    forall g: Flag ensures !Named(args[0], g) { if g != f { OneMeaning(args[0], f, g); } }
  }

  lemma KeepsRulePair(args: Args)
    requires |args| >= 2 && Named(args[0], Rule) && !Dash(args[1])
    ensures var rest := WithoutDiff(args[2..]);
            && Values(WithoutDiff(args), Rule) == Prepend(args[1], Values(rest, Rule))
            && forall f: Flag | f != Rule :: Values(WithoutDiff(args), f) == Values(rest, f)
  {
    var rest := WithoutDiff(args[2..]);
    forall f: Flag | f != Rule ensures !Named(args[0], f) && !Inline(args[0], f) { OneMeaning(args[0], Rule, f); }
    forall f: Flag ensures !Named(args[1], f) && !Inline(args[1], f) { PlainIsNoFlag(args[1], f); }
    SelectorFlags(args[0]);
    SelectorFlags(args[1]);
    assert args[1..][1..] == args[2..];
    assert WithoutDiff(args) == [args[0]] + ([args[1]] + rest);
    var w := [args[0]] + ([args[1]] + rest);
    assert w[2..] == rest && w[1..] == [args[1]] + rest;
    forall f: Flag | f != Rule ensures Values(w, f) == Values(rest, f) {
      PassesOver(args[0], [args[1]] + rest, f);
      PassesOver(args[1], rest, f);
    }
  }

  lemma KeepsRuleItem(args: Args)
    requires |args| >= 1 && Inline(args[0], Rule) && InlineValue(args[0], Long(Rule)) != ""
    ensures var rest := WithoutDiff(args[1..]);
            && Values(WithoutDiff(args), Rule) == Prepend(InlineValue(args[0], Long(Rule)), Values(rest, Rule))
            && forall f: Flag | f != Rule :: Values(WithoutDiff(args), f) == Values(rest, f)
  {
    var rest := WithoutDiff(args[1..]);
    OneMeaning(args[0], Rule, Rule);
    forall f: Flag | f != Rule ensures !Named(args[0], f) && !Inline(args[0], f) { OneMeaning(args[0], Rule, f); }
    SelectorFlags(args[0]);
    var w := [args[0]] + rest;
    assert w[1..] == rest;
    forall f: Flag | f != Rule ensures Values(w, f) == Values(rest, f) {
      PassesOver(args[0], rest, f);
    }
  }

  lemma ValuesStep(args: Args, f: Flag)
    ensures args == [] ==> Values(args, f) == Ok([])
    ensures args != [] && Named(args[0], f) ==>
      Values(args, f) == if |args| < 2 || Dash(args[1]) then Err else Prepend(args[1], Values(args[2..], f))
    ensures args != [] && !Named(args[0], f) && Inline(args[0], f) ==>
      Values(args, f) == if InlineValue(args[0], Long(f)) == "" then Err
                         else Prepend(InlineValue(args[0], Long(f)), Values(args[1..], f))
    ensures args != [] && !Named(args[0], f) && !Inline(args[0], f) ==> Values(args, f) == Values(args[1..], f)
  {
  }

  lemma PrependOk<T>(x: T, rest: Result<seq<T>>)
    ensures Prepend(x, rest).Ok? <==> rest.Ok?
    ensures rest.Ok? ==> Prepend(x, rest).value == [x] + rest.value
  {
  }

  // The production vector.

  lemma {:induction false} ScanAppend(w: Args, tail: Args, f: Flag)
    requires Values(w, f).Ok?
    ensures Values(w + tail, f) == Before(Values(w, f).value, Values(tail, f))
    decreases |w|
  {
    hide Named, IsInline, InlineValue, Values, Prepend;
    ValuesStep(w, f);
    if w == [] {
      assert w + tail == tail;
      BeforeNothing(Values(tail, f));
      return;
    }
    ValuesStep(w + tail, f);
    if Named(w[0], f) {
      PrependOk(w[1], Values(w[2..], f));
      ScanAppend(w[2..], tail, f);
      assert (w + tail)[2..] == w[2..] + tail && (w + tail)[1] == w[1];
      Shift(w[1], Values(w[2..], f).value, Values(tail, f));
    } else {
      if Inline(w[0], f) { PrependOk(InlineValue(w[0], Long(f)), Values(w[1..], f)); }
      ScanAppend(w[1..], tail, f);
      assert (w + tail)[1..] == w[1..] + tail;
      if Inline(w[0], f) {
        Shift(InlineValue(w[0], Long(f)), Values(w[1..], f).value, Values(tail, f));
      }
    }
  }

  lemma Shift<T>(x: T, values: seq<T>, rest: Result<seq<T>>)
    ensures Prepend(x, Before(values, rest)) == Before([x] + values, rest)
  {
    if rest.Ok? { assert [x] + (values + rest.value) == [x] + values + rest.value; }
  }

  function Production(args: Args, base: string, head: string, path: string): Args {
    ["--from", base, "--to", head] + (WithoutDiff(args) + ["--background-file", path])
  }

  lemma BackgroundIsSilent(w: Args, path: string, f: Flag)
    requires Values(w, f).Ok? && !Dash(path)
    ensures Values(w + ["--background-file", path], f) == Values(w, f)
  {
    var flag := "--background-file";
    ScanAppend(w, [flag, path], f);
    assert flag[2] == 'b';
    Third(flag, f);
    PlainIsNoFlag(path, f);
    PassesOver(flag, [path], f);
    PassesOver(path, [], f);
    assert [flag] + [path] == [flag, path] && [path] + [] == [path];
    NothingToScan();
    assert Values(w, f).value + [] == Values(w, f).value;
  }

  /** The evidence refs of the production vector are the immutable pair it was built from,
      exactly when neither ref looks like an option. */
  lemma ProductionRefs(args: Args, base: string, head: string, path: string)
    requires Scannable(args) && !Dash(path)
    ensures var p := Production(args, base, head, path);
            && (ReviewRefs(p) == Ok(Refs(base, head)) <==> !Dash(base) && !Dash(head))
            && (!Dash(base) && !Dash(head) ==> Values(p, Rule) == Values(args, Rule))
  {
    hide Scan, IsInline, WithoutDiff, Dash, IsName;
    var p := Production(args, base, head, path);
    var tail := WithoutDiff(args) + ["--background-file", path];
    NoSelectorRemains(args);
    forall f: Flag ensures Values(tail, f) == Values(WithoutDiff(args), f) {
      BackgroundIsSilent(WithoutDiff(args), path, f);
    }
    assert p == ["--from", base] + (["--to", head] + tail);
    FrontPair(p, base, ["--to", head] + tail, From);
    FrontPair(["--to", head] + tail, head, tail, To);
    NamesAndValues(p);
  }

  lemma NamesAndValues(p: Args)
    ensures One(p, "--from", None) == OneOf(Values(p, From)) && One(p, "--to", None) == OneOf(Values(p, To))
    ensures One(p, "--commit", Some("-c")) == OneOf(Values(p, Commit))
  {
  }

  function OneOf(values: Result<seq<string>>): Result<Option<string>> {
    if values.Err? || |values.value| > 1 then Err
    else Ok(if values.value == [] then None else Some(values.value[0]))
  }

  lemma FrontPair(args: Args, value: string, rest: Args, f: Flag)
    requires args == [Long(f), value] + rest
    ensures Values(args, f) == if Dash(value) then Err else Prepend(value, Values(rest, f))
    ensures forall g: Flag | g != f && !Dash(value) :: Values(args, g) == Values(rest, g)
  {
    assert args[2..] == rest && args[1] == value;
    forall g: Flag | g != f && !Dash(value) ensures Values(args, g) == Values(rest, g) {
      OneMeaning(Long(f), f, g);
      PlainIsNoFlag(value, g);
      PassesOver(Long(f), [value] + rest, g);
      PassesOver(value, rest, g);
      assert args == [Long(f)] + ([value] + rest);
    }
  }

  // Replacing the rule.

  function Count(values: seq<string>, was: string): nat {
    if values == [] then 0 else (if values[0] == was then 1 else 0) + Count(values[1..], was)
  }

  function Mapped(values: seq<string>, was: string, becomes: string): seq<string> {
    if values == [] then []
    else [if values[0] == was then becomes else values[0]] + Mapped(values[1..], was, becomes)
  }

  /** What the walk leaves alone: everything, or everything but one rule value. */
  predicate ChangedAt(args: Args, r: Args, was: string, becomes: string, k: nat) {
    && k < |args| == |r| && r == args[k := r[k]]
    && ((args[k] == was && r[k] == becomes) || (args[k] == "--rule=" + was && r[k] == "--rule=" + becomes))
  }

  /** The walk keeps the length and every scan, and maps exactly the values the scanner reads. */
  predicate Faithful(args: Args, walk: Result<Replacement>, was: string, becomes: string) {
    && walk.Ok? && |walk.value.args| == |args|
    && Values(args, Rule).Ok?
    && walk.value.matches == Count(Values(args, Rule).value, was)
    && Values(walk.value.args, Rule) == Ok(Mapped(Values(args, Rule).value, was, becomes))
    && (forall f: Flag | f != Rule :: Values(walk.value.args, f) == Values(args, f))
  }

  ghost predicate Localised(args: Args, walk: Result<Replacement>, was: string, becomes: string) {
    && walk.Ok? && |walk.value.args| == |args|
    && (walk.value.matches == 0 ==> walk.value.args == args)
    && (walk.value.matches == 1 ==> exists k: nat :: ChangedAt(args, walk.value.args, was, becomes, k))
  }

  lemma {:induction false} WalkIsFaithful(args: Args, was: string, becomes: string)
    requires Scannable(args) && becomes != "" && !Dash(becomes)
    ensures Faithful(args, ReplaceWalk(args, was, becomes), was, becomes)
    decreases |args|
  {
    hide Named, Inline, Scan, IsInline, Dash;
    if args == [] {
      NothingToScan();
    } else if f: Flag :| Named(args[0], f) {
      NamedPair(args, f);
      WalkIsFaithful(args[2..], was, becomes);
      NamedStep(args, f, was, becomes);
    } else if f: Flag :| Inline(args[0], f) {
      InlineOne(args, f);
      WalkIsFaithful(args[1..], was, becomes);
      InlineStep(args, f, was, becomes);
    } else {
      PlainOne(args);
      WalkIsFaithful(args[1..], was, becomes);
      PlainStep(args, was, becomes);
    }
  }

  lemma PlainStep(args: Args, was: string, becomes: string)
    requires Scannable(args) && args != [] && Plain(args[0])
    requires Faithful(args[1..], ReplaceWalk(args[1..], was, becomes), was, becomes)
    ensures Faithful(args, ReplaceWalk(args, was, becomes), was, becomes)
  {
    PlainOne(args);
    var rest := ReplaceWalk(args[1..], was, becomes).value;
    assert !Named(args[0], Rule) && !Inline(args[0], Rule);
    assert ReplaceWalk(args, was, becomes) == Push([args[0]], 0, Ok(rest));
    forall f: Flag ensures Values([args[0]] + rest.args, f) == Values(rest.args, f) {
      PassesOver(args[0], rest.args, f);
    }
  }

  /** The two items of a named option, put in front, mean the same to every scanner. */
  lemma PairInFront(name: string, value: string, rest: Args, f: Flag)
    requires Named(name, f) && !Dash(value)
    ensures Values([name, value] + rest, f) == Prepend(value, Values(rest, f))
    ensures forall g: Flag | g != f :: Values([name, value] + rest, g) == Values(rest, g)
  {
    var args := [name, value] + rest;
    assert args[2..] == rest;
    forall g: Flag | g != f ensures Values(args, g) == Values(rest, g) {
      OneMeaning(name, f, g);
      PlainIsNoFlag(value, g);
      PassesOver(name, [value] + rest, g);
      PassesOver(value, rest, g);
      assert args == [name] + ([value] + rest);
    }
  }

  lemma InlineInFront(item: string, rest: Args, f: Flag)
    requires Inline(item, f) && InlineValue(item, Long(f)) != ""
    ensures Values([item] + rest, f) == Prepend(InlineValue(item, Long(f)), Values(rest, f))
    ensures forall g: Flag | g != f :: Values([item] + rest, g) == Values(rest, g)
  {
    OneMeaning(item, f, f);
    assert ([item] + rest)[1..] == rest;
    forall g: Flag | g != f ensures Values([item] + rest, g) == Values(rest, g) {
      OneMeaning(item, f, g);
      PassesOver(item, rest, g);
    }
  }

  lemma NamedStep(args: Args, f: Flag, was: string, becomes: string)
    requires Scannable(args) && args != [] && Named(args[0], f) && |args| >= 2 && !Dash(becomes)
    requires Faithful(args[2..], ReplaceWalk(args[2..], was, becomes), was, becomes)
    ensures Faithful(args, ReplaceWalk(args, was, becomes), was, becomes)
  {
    hide Inline, Scan, IsInline, Dash;
    NamedPair(args, f);
    var rest := ReplaceWalk(args[2..], was, becomes).value;
    var value := if f == Rule && args[1] == was then becomes else args[1];
    WalkOverPair(args, f, was, becomes, rest);
    PairInFront(args[0], value, rest.args, f);
    var values := Values(args[2..], Rule).value;
    assert ([args[1]] + values)[1..] == values;
  }

  lemma WalkOverPair(args: Args, f: Flag, was: string, becomes: string, rest: Replacement)
    requires Scannable(args) && args != [] && Named(args[0], f) && |args| >= 2 && !Dash(args[1])
    requires ReplaceWalk(args[2..], was, becomes) == Ok(rest)
    ensures ReplaceWalk(args, was, becomes) ==
            Ok(Replacement([args[0], if f == Rule && args[1] == was then becomes else args[1]] + rest.args,
                           rest.matches + if f == Rule && args[1] == was then 1 else 0))
  {
    if f != Rule {
      OneMeaning(args[0], f, Rule);
      PlainIsNoFlag(args[1], Rule);
      assert args[1..][1..] == args[2..];
      assert [args[0]] + ([args[1]] + rest.args) == [args[0], args[1]] + rest.args;
    }
  }

  lemma InlineStep(args: Args, f: Flag, was: string, becomes: string)
    requires Scannable(args) && args != [] && Inline(args[0], f) && becomes != ""
    requires Faithful(args[1..], ReplaceWalk(args[1..], was, becomes), was, becomes)
    ensures Faithful(args, ReplaceWalk(args, was, becomes), was, becomes)
  {
    InlineOne(args, f);
    var rest := ReplaceWalk(args[1..], was, becomes).value;
    OneMeaning(args[0], f, Rule);
    OneMeaning(args[0], f, f);
    var same := f == Rule && InlineValue(args[0], "--rule") == was;
    var item := if same then "--rule=" + becomes else args[0];
    assert ReplaceWalk(args, was, becomes) == Ok(Replacement([item] + rest.args, rest.matches + if same then 1 else 0));
    NewInline(becomes);
    InlineInFront(item, rest.args, f);
    var values := Values(args[1..], Rule).value;
    assert ([InlineValue(args[0], Long(f))] + values)[1..] == values;
  }

  lemma NewInline(value: string)
    ensures Inline("--rule=" + value, Rule) && InlineValue("--rule=" + value, "--rule") == value
  {
    assert ("--rule=" + value)[..7] == "--rule" + "=";
  }

  lemma {:induction false} WalkIsLocal(args: Args, was: string, becomes: string)
    requires ReplaceWalk(args, was, becomes).Ok?
    ensures Localised(args, ReplaceWalk(args, was, becomes), was, becomes)
    decreases |args|
  {
    hide ChangedAt;
    if args == [] {
    } else if args[0] == "--rule" {
      WalkIsLocal(args[2..], was, becomes);
      assert args == [args[0], args[1]] + args[2..];
      assert [args[0], args[1]][1 := becomes] == [args[0], becomes];
      assert ReplaceWalk(args, was, becomes)
          == Push([args[0], if args[1] == was then becomes else args[1]], if args[1] == was then 1 else 0,
                  ReplaceWalk(args[2..], was, becomes));
      ExtendLocal([args[0], args[1]], args[2..], 1, becomes, ReplaceWalk(args[2..], was, becomes).value,
                  args[1] == was, was, becomes);
    } else {
      WalkIsLocal(args[1..], was, becomes);
      var same := IsInline(args[0], "--rule") && InlineValue(args[0], "--rule") == was;
      if same {
        assert args[0] == "--rule=" + was;
      }
      assert args == [args[0]] + args[1..];
      assert [args[0]][0 := "--rule=" + becomes] == ["--rule=" + becomes];
      ExtendLocal([args[0]], args[1..], 0, "--rule=" + becomes, ReplaceWalk(args[1..], was, becomes).value,
                  same, was, becomes);
    }
  }

  /** Putting items in front of a localised walk, with or without changing item `k` of them. */
  lemma ExtendLocal(items: Args, args: Args, k: nat, item: string, rest: Replacement, same: bool,
                    was: string, becomes: string)
    requires Localised(args, Ok(rest), was, becomes) && k < |items|
    requires same ==> (|| (items[k] == was && item == becomes)
                       || (items[k] == "--rule=" + was && item == "--rule=" + becomes))
    ensures Localised(items + args, Push(if same then items[k := item] else items, if same then 1 else 0, Ok(rest)),
                      was, becomes)
  {
    if same && rest.matches == 0 {
      assert ChangedAt(items + args, items[k := item] + args, was, becomes, k);
    } else if !same && rest.matches == 1 {
      var j: nat :| ChangedAt(args, rest.args, was, becomes, j);
      assert ChangedAt(items + args, items + rest.args, was, becomes, |items| + j);
    }
  }

  /** The runner replaces the one rule it parsed: it succeeds, keeps the length and all items but
      one, no scan of another flag notices, and the rule scan then reads the new path. */
  lemma RuleIsReplaced(args: Args, was: string, becomes: string)
    requires Scannable(args) && becomes != "" && !Dash(becomes)
    ensures ReplaceRule(args, was, becomes).Ok? <==> Count(Values(args, Rule).value, was) == 1
    ensures One(args, "--rule", None) == Ok(Some(was)) ==>
              && ReplaceRule(args, was, becomes).Ok?
              && var r := ReplaceRule(args, was, becomes).value;
                 && |r| == |args| && (exists k: nat :: ChangedAt(args, r, was, becomes, k))
                 && One(r, "--rule", None) == Ok(Some(becomes)) && Scannable(r)
                 && (forall f: Flag | f != Rule :: Values(r, f) == Values(args, f))
  {
    hide Scan, Localised, ChangedAt;
    WalkIsFaithful(args, was, becomes);
    assert Localised(args, ReplaceWalk(args, was, becomes), was, becomes) by { WalkIsLocal(args, was, becomes); }
    assert Values(args, Rule).Ok?;
    Ones(args, was, becomes);
  }

  lemma Ones(args: Args, was: string, becomes: string)
    requires Faithful(args, ReplaceWalk(args, was, becomes), was, becomes) && Scannable(args)
    requires Localised(args, ReplaceWalk(args, was, becomes), was, becomes)
    ensures One(args, "--rule", None) == Ok(Some(was)) ==>
              && ReplaceRule(args, was, becomes).Ok?
              && var r := ReplaceRule(args, was, becomes).value;
                 && |r| == |args| && (exists k: nat :: ChangedAt(args, r, was, becomes, k))
                 && One(r, "--rule", None) == Ok(Some(becomes)) && Scannable(r)
                 && (forall f: Flag | f != Rule :: Values(r, f) == Values(args, f))
  {
    hide Scan, ReplaceWalk, ChangedAt;
    if One(args, "--rule", None) == Ok(Some(was)) {
      var values := Values(args, Rule).value;
      assert values == [was] && values[1..] == [];
      assert Count(values, was) == 1;
      assert Mapped(values, was, becomes) == [becomes];
      var r := ReplaceWalk(args, was, becomes).value.args;
      forall f: Flag ensures Values(r, f).Ok? { assert Values(args, f).Ok?; }
    }
  }

  /** The whole rewriting: whatever selectors and rule the caller gave, the production vector
      reads as the immutable pair and the policy-owned rule. */
  lemma ProductionReadsBack(args: Args, was: string, becomes: string, base: string, head: string, path: string)
    requires Scannable(args) && One(args, "--rule", None) == Ok(Some(was))
    requires becomes != "" && !Dash(becomes) && !Dash(base) && !Dash(head) && !Dash(path)
    ensures ReplaceRule(args, was, becomes).Ok?
    ensures var p := Production(ReplaceRule(args, was, becomes).value, base, head, path);
            ReviewRefs(p) == Ok(Refs(base, head)) && One(p, "--rule", None) == Ok(Some(becomes))
  {
    hide Scan, ReplaceRule, ReviewRefs, Production;
    RuleIsReplaced(args, was, becomes);
    ProductionRefs(ReplaceRule(args, was, becomes).value, base, head, path);
  }
}
