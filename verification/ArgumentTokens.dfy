/** Argument vectors as what they are written from: options with their values, and other words. Every
    scanner reads back what was written. */
module ArgumentTokens {
  import opened Json
  import opened Arguments

  /** A word; an option with its value as the next item; an option and its value in one item. */
  datatype Token = Word(item: string) | Pair(name: string, value: string) | Joint(name: string, value: string)

  const LONG_NAMES := {"--from", "--to", "--commit", "--rule"}

  /** The options that select a revision. */
  const SELECTORS := {"--from", "--to", "--commit", "-c"}

  predicate OptionName(name: string) { name in LONG_NAMES || name == "-c" }

  /** A word is no option; a separate value does not look like one; a joined one is not empty. */
  predicate Proper(t: Token) {
    match t
    case Word(item) => !OptionName(item) && forall name | name in LONG_NAMES :: !(name + "=" <= item)
    case Pair(name, value) => OptionName(name) && !("-" <= value)
    case Joint(name, value) => name in LONG_NAMES && value != ""
  }

  function Items(t: Token): Args {
    match t
    case Word(item) => [item]
    case Pair(name, value) => [name, value]
    case Joint(name, value) => [name + "=" + value]
  }

  /** The vector that the tokens make. */
  function Spelled(tokens: seq<Token>): Args {
    if tokens == [] then [] else Items(tokens[0]) + Spelled(tokens[1..])
  }

  predicate AllProper(tokens: seq<Token>) { forall i | 0 <= i < |tokens| :: Proper(tokens[i]) }

  /** The values given to an option, in order; `-c` is short for `--commit`. */
  function Given(tokens: seq<Token>, name: string): seq<string> {
    if tokens == [] then []
    else
      var t := tokens[0];
      (if !t.Word? && (t.name == name || (name == "--commit" && t.name == "-c")) then [t.value] else [])
      + Given(tokens[1..], name)
  }

  function ScanOf(args: Args, name: string): Result<seq<string>> {
    Scan(args, name, if name == "--commit" then Some("-c") else None)
  }

  lemma FlagOf(name: string) returns (f: Flag)
    requires name in LONG_NAMES
    ensures Long(f) == name && forall args: Args :: ScanOf(args, name) == Values(args, f)
  {
    f := if name == "--from" then From else if name == "--to" then To else if name == "--commit" then Commit else Rule;
  }

  /** What each kind of token is to the scanner of a flag. */
  lemma WordIsPlain(item: string, f: Flag)
    requires Proper(Word(item))
    ensures !Named(item, f) && !Inline(item, f)
  {
    assert Long(f) in LONG_NAMES;
  }

  lemma JointIsInline(name: string, value: string, f: Flag)
    requires name in LONG_NAMES
    ensures !Named(name + "=" + value, f)
    ensures Inline(name + "=" + value, f) <==> Long(f) == name
    ensures Long(f) == name ==> InlineValue(name + "=" + value, Long(f)) == value
  {
    var item := name + "=" + value;
    var own := FlagOf(name);
    assert Long(own) + "=" <= item;
    OneMeaning(item, own, f);
  }

  lemma PairIsNamed(name: string, value: string, f: Flag)
    requires Proper(Pair(name, value))
    ensures Named(name, f) <==> Long(f) == name || (f == Commit && name == "-c")
    ensures !Inline(name, f) && !Named(value, f) && !Inline(value, f)
  {
    PlainIsNoFlag(value, f);
    if name in LONG_NAMES {
      var own := FlagOf(name);
      OneMeaning(name, own, f);
    } else {
      OneMeaning(name, Commit, f);
    }
  }

  /** Every scanner reads the values given to its option, in order. */
  lemma {:induction false} ReadBack(tokens: seq<Token>, name: string)
    requires AllProper(tokens) && name in LONG_NAMES
    ensures ScanOf(Spelled(tokens), name) == Ok(Given(tokens, name))
  {
    hide Named, Inline, InlineValue, Proper;
    var f := FlagOf(name);
    if tokens == [] {
      NothingToScan();
    } else {
      assert Proper(tokens[0]);
      ReadBack(tokens[1..], name);
      TokenReads(tokens[0], Spelled(tokens[1..]), f, Given(tokens[1..], name));
    }
  }

  /** One token in front of a vector that reads as `rest`. */
  lemma TokenReads(t: Token, args: Args, f: Flag, rest: seq<string>)
    requires Proper(t) && Values(args, f) == Ok(rest)
    ensures Values(Items(t) + args, f) ==
            Ok((if !t.Word? && (t.name == Long(f) || (f == Commit && t.name == "-c")) then [t.value] else []) + rest)
  {
    hide Named, Inline, InlineValue, Scan;
    assert [] + rest == rest;
    match t
    case Word(item) =>
      WordIsPlain(item, f);
      PassesOver(item, args, f);
    case Joint(name, value) =>
      var item := name + "=" + value;
      JointIsInline(name, value, f);
      assert ([item] + args)[1..] == args;
      ValuesStep([item] + args, f);
    case Pair(name, value) =>
      PairIsNamed(name, value, f);
      var w := [name, value] + args;
      assert w[1..] == [value] + args && w[2..] == args;
      ValuesStep(w, f);
      PassesOver(value, args, f);
  }

  /** Removing the selectors leaves the other tokens as they were. */
  function WithoutSelectors(tokens: seq<Token>): seq<Token> {
    if tokens == [] then []
    else (if !tokens[0].Word? && tokens[0].name in SELECTORS then [] else [tokens[0]]) + WithoutSelectors(tokens[1..])
  }

  lemma {:induction false} SelectorsRemoved(tokens: seq<Token>)
    requires AllProper(tokens)
    ensures WithoutDiff(Spelled(tokens)) == Spelled(WithoutSelectors(tokens))
  {
    hide WithoutDiff, Proper;
    if tokens == [] {
      NothingSelected();
    } else {
      assert Proper(tokens[0]);
      SelectorsRemoved(tokens[1..]);
      TokenRemoved(tokens[0], Spelled(tokens[1..]));
      var rest := WithoutSelectors(tokens[1..]);
      assert ([tokens[0]] + rest)[1..] == rest;
      assert [] + rest == rest && [] + Spelled(rest) == Spelled(rest);
    }
  }

  lemma NothingSelected()
    ensures WithoutDiff([]) == []
  {
  }

  lemma TokenRemoved(t: Token, args: Args)
    requires Proper(t)
    ensures WithoutDiff(Items(t) + args) ==
            (if !t.Word? && t.name in SELECTORS then [] else Items(t)) + WithoutDiff(args)
  {
    hide Selects, SelectsInline, Named, Inline;
    var w := Items(t) + args;
    assert [] + WithoutDiff(args) == WithoutDiff(args);
    SelectorFlags(w[0]);
    match t
    case Word(item) =>
      WordIsPlain(item, From);
      WordIsPlain(item, To);
      WordIsPlain(item, Commit);
      assert w[1..] == args;
    case Joint(name, value) =>
      JointIsInline(name, value, From);
      JointIsInline(name, value, To);
      JointIsInline(name, value, Commit);
      assert w[1..] == args;
    case Pair(name, value) => PairRemoved(name, value, args);
  }

  lemma PairRemoved(name: string, value: string, args: Args)
    requires Proper(Pair(name, value))
    ensures WithoutDiff([name, value] + args) ==
            (if name in SELECTORS then [] else [name, value]) + WithoutDiff(args)
  {
    hide Selects, SelectsInline, Named, Inline;
    var w := [name, value] + args;
    SelectorFlags(name);
    SelectorFlags(value);
    PairIsNamed(name, value, From);
    PairIsNamed(name, value, To);
    PairIsNamed(name, value, Commit);
    assert w[1..] == [value] + args && w[1..][1..] == args && w[2..] == args;
  }

  /** Every vector that all scanners read is written from proper tokens. */
  lemma {:induction false} ScannableIsSpelled(args: Args) returns (tokens: seq<Token>)
    requires Scannable(args)
    ensures AllProper(tokens) && Spelled(tokens) == args
    decreases |args|
  {
    hide Scannable, Named, Inline, Proper;
    tokens := [];
    if args != [] {
      var t := FirstToken(args);
      var rest := ScannableIsSpelled(args[|Items(t)|..]);
      tokens := [t] + rest;
      assert tokens[1..] == rest;
    }
  }

  /** The token that a vector starts with. */
  lemma FirstToken(args: Args) returns (t: Token)
    requires Scannable(args) && args != []
    ensures Proper(t) && |Items(t)| > 0 && Items(t) <= args && Scannable(args[|Items(t)|..])
  {
    hide Scan;
    if f: Flag :| Named(args[0], f) {
      NamedPair(args, f);
      t := Pair(args[0], args[1]);
    } else if f: Flag :| Inline(args[0], f) {
      InlineOne(args, f);
      var value := InlineValue(args[0], Long(f));
      t := Joint(Long(f), value);
      assert args[0] == Long(f) + "=" + value;
    } else {
      PlainOne(args);
      t := Word(args[0]);
      WordIsProper(args[0]);
    }
  }

  lemma WordIsProper(item: string)
    requires forall f: Flag :: !Named(item, f) && !Inline(item, f)
    ensures Proper(Word(item))
  {
    forall name | name in LONG_NAMES ensures item != name && !(name + "=" <= item) {
      var f := FlagOf(name);
      assert !Named(item, f) && !Inline(item, f);
    }
    assert !Named(item, Commit);
  }

  // The revisions under review, and the rule.

  /** The revisions a vector asks for: a commit against its parent, or a base and a head. */
  lemma RevisionsRead(tokens: seq<Token>)
    requires AllProper(tokens)
    ensures var base, head, commit := Given(tokens, "--from"), Given(tokens, "--to"), Given(tokens, "--commit");
            ReviewRefs(Spelled(tokens)) ==
            if base == [] && head == [] && |commit| == 1 then Ok(Refs(commit[0] + "^", commit[0]))
            else if |base| == 1 && |head| == 1 && commit == [] then Ok(Refs(base[0], head[0]))
            else Err
  {
    hide Scan, Given, Spelled;
    ReadBack(tokens, "--from");
    ReadBack(tokens, "--to");
    ReadBack(tokens, "--commit");
  }

  /** The tokens with every rule of one value given another. */
  function WithRule(tokens: seq<Token>, was: string, becomes: string): seq<Token> {
    if tokens == [] then [] else [Ruled(tokens[0], was, becomes)] + WithRule(tokens[1..], was, becomes)
  }

  /** The token with the value changed, if it gives this rule. */
  function Ruled(t: Token, was: string, becomes: string): Token {
    if Rules(t, was) then t.(value := becomes) else t
  }

  predicate Rules(t: Token, was: string) { !t.Word? && t.name == "--rule" && t.value == was }

  /** Replacing the rule replaces the one option that gives this value, in either form, and is refused
      unless there is exactly one. */
  lemma RuleReplaced(tokens: seq<Token>, was: string, becomes: string)
    requires AllProper(tokens)
    ensures ReplaceRule(Spelled(tokens), was, becomes) ==
            if multiset(Given(tokens, "--rule"))[was] == 1 then Ok(Spelled(WithRule(tokens, was, becomes))) else Err
  {
    WalkReplaces(tokens, was, becomes);
  }

  lemma {:induction false} WalkReplaces(tokens: seq<Token>, was: string, becomes: string)
    requires AllProper(tokens)
    ensures ReplaceWalk(Spelled(tokens), was, becomes) ==
            Ok(Replacement(Spelled(WithRule(tokens, was, becomes)), multiset(Given(tokens, "--rule"))[was]))
  {
    hide Proper, ReplaceWalk;
    if tokens == [] {
      NothingReplaced(was, becomes);
    } else {
      var t, rest := tokens[0], tokens[1..];
      assert Proper(t);
      WalkReplaces(rest, was, becomes);
      TokenReplaced(t, Spelled(rest), was, becomes);
      RuleCounted(t, rest, was);
      var more := WithRule(rest, was, becomes);
      assert WithRule(tokens, was, becomes) == [Ruled(t, was, becomes)] + more;
      assert ([Ruled(t, was, becomes)] + more)[1..] == more;
    }
  }

  lemma NothingReplaced(was: string, becomes: string)
    ensures ReplaceWalk([], was, becomes) == Ok(Replacement([], 0))
  {
  }

  lemma RuleCounted(t: Token, rest: seq<Token>, was: string)
    ensures multiset(Given([t] + rest, "--rule"))[was] ==
            multiset(Given(rest, "--rule"))[was] + (if Rules(t, was) then 1 else 0)
    ensures [t] + rest != [] && ([t] + rest)[0] == t && ([t] + rest)[1..] == rest
  {
    var tokens := [t] + rest;
    assert tokens[1..] == rest;
    var own := if !t.Word? && t.name == "--rule" then [t.value] else [];
    assert Given(tokens, "--rule") == own + Given(rest, "--rule");
    assert multiset(own + Given(rest, "--rule")) == multiset(own) + multiset(Given(rest, "--rule"));
  }

  lemma TokenReplaced(t: Token, args: Args, was: string, becomes: string)
    requires Proper(t)
    ensures ReplaceWalk(Items(t) + args, was, becomes) ==
            Push(Items(Ruled(t, was, becomes)), if Rules(t, was) then 1 else 0, ReplaceWalk(args, was, becomes))
  {
    hide IsInline, InlineValue, Named, ReplaceWalk;
    var w := Items(t) + args;
    ReplaceStep(w, was, becomes);
    match t
    case Word(item) =>
      WordIsPlain(item, Rule);
      RuleForms(item);
      assert w[1..] == args;
    case Joint(name, value) =>
      JointIsInline(name, value, Rule);
      RuleForms(w[0]);
      assert w[1..] == args;
      assert "--rule=" + becomes == "--rule" + "=" + becomes;
    case Pair(name, value) =>
      PairIsNamed(name, value, Rule);
      RuleForms(name);
      RuleForms(value);
      assert w[1..] == [value] + args && w[1..][1..] == args && w[2..] == args;
      ReplaceStep(w[1..], was, becomes);
      PushStep([name], 0, [value], 0, ReplaceWalk(args, was, becomes));
      assert [name] + [value] == [name, value];
  }

  lemma RuleForms(item: string)
    ensures Named(item, Rule) <==> item == "--rule"
    ensures Inline(item, Rule) <==> IsInline(item, "--rule")
    ensures Long(Rule) == "--rule"
  {
  }

  lemma ReplaceStep(args: Args, was: string, becomes: string)
    requires args != []
    ensures ReplaceWalk(args, was, becomes) ==
            if args[0] == "--rule" then
              if |args| < 2 then Err
              else Push([args[0], if args[1] == was then becomes else args[1]], if args[1] == was then 1 else 0,
                        ReplaceWalk(args[2..], was, becomes))
            else if IsInline(args[0], "--rule") then
              var same := InlineValue(args[0], "--rule") == was;
              Push([if same then "--rule=" + becomes else args[0]], if same then 1 else 0,
                   ReplaceWalk(args[1..], was, becomes))
            else Push([args[0]], 0, ReplaceWalk(args[1..], was, becomes))
  {
  }
}
