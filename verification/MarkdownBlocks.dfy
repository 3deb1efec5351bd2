/** Fenced code blocks and code spans that contain what they are given, read back by the
    rules of sections 4.5 and 6.1 of CommonMark 0.31.2. */
module MarkdownBlocks {
  import opened PyText
  import opened Json
  import opened Collections
  import opened MarkdownLines
  import opened MarkdownFences

  // Backtick runs.

  /** Some `k` consecutive characters are all backticks. */
  ghost predicate HasRun(s: string, k: nat) {
    exists i :: RunAt(s, i, k)
  }

  ghost predicate RunAt(s: string, i: int, k: nat) {
    0 <= i && i + k <= |s| && forall j | i <= j < i + k :: s[j] == '`'
  }

  function TrailingRun(s: string): (n: nat)
    ensures n <= |s|
  {
    if s == "" || s[|s| - 1] != '`' then 0 else 1 + TrailingRun(s[..|s| - 1])
  }

  function MaxBacktickRun(s: string): nat {
    if s == "" then 0
    else
      var before, current := MaxBacktickRun(s[..|s| - 1]), TrailingRun(s);
      if current > before then current else before
  }

  method ComputeMaxBacktickRun(text: string) returns (longest: nat)
    ensures longest == MaxBacktickRun(text)
  {
    longest := 0;
    var current := 0;
    for i := 0 to |text|
      invariant longest == MaxBacktickRun(text[..i]) && current == TrailingRun(text[..i])
      invariant current <= longest
    {
      assert text[..i + 1][..i] == text[..i];
      if text[i] == '`' {
        current := current + 1;
        longest := if longest > current then longest else current;
      } else {
        current := 0;
      }
    }
    assert text[..|text|] == text;
  }

  lemma {:induction false} TrailingRunExact(s: string, k: nat)
    requires k <= |s|
    ensures RunAt(s, |s| - k, k) <==> k <= TrailingRun(s)
  {
    if k > 0 {
      var before := s[..|s| - 1];
      if s[|s| - 1] == '`' {
        TrailingRunExact(before, k - 1);
        assert RunAt(s, |s| - k, k) <==> RunAt(before, |before| - (k - 1), k - 1);
      }
    }
  }

  /** The computed number is the length of the longest run there is. */
  lemma {:induction false} MaxRunExact(s: string, k: nat)
    ensures HasRun(s, k) <==> k <= MaxBacktickRun(s)
  {
    if s == "" {
      if k == 0 { assert RunAt(s, 0, 0); }
    } else {
      var before := s[..|s| - 1];
      MaxRunExact(before, k);
      if k <= |s| {
        TrailingRunExact(s, k);
      }
      if i :| RunAt(s, i, k) && i + k < |s| {
        assert RunAt(before, i, k);
      }
      if i :| RunAt(before, i, k) {
        assert RunAt(s, i, k);
      }
    }
  }

  lemma RunInPart(a: string, b: string, c: string, k: nat)
    requires HasRun(b, k)
    ensures HasRun(a + b + c, k)
  {
    var i :| RunAt(b, i, k);
    assert forall j | i <= j < i + k :: (a + b + c)[|a| + j] == b[j];
    assert RunAt(a + b + c, |a| + i, k);
  }

  /** A run in some line of a text is a run of the text. */
  lemma {:induction false} RunInLine(lines: seq<Line>, n: nat, k: nat)
    requires n < |lines| && HasRun(lines[n].body, k)
    ensures HasRun(JoinLines(lines), k)
  {
    var rest := JoinLines(lines[1..]);
    if n == 0 {
      RunInPart("", lines[0].body, lines[0].ending + rest, k);
      assert "" + lines[0].body + (lines[0].ending + rest) == JoinLines(lines);
    } else {
      RunInLine(lines[1..], n - 1, k);
      RunInPart(lines[0].Text(), rest, "", k);
      assert lines[0].Text() + rest + "" == JoinLines(lines);
    }
  }

  // Escaping.

  /** The Unicode general categories the escapes distinguish. */
  datatype Category = Control | Format | LineSeparator | ParagraphSeparator | OtherCategory

  type Classifier = char -> Category

  function HexDigit(d: nat): char
    requires d < 16
  {
    "0123456789abcdef"[d]
  }

  /** Lower-case hexadecimal, padded with zeros to at least `width` digits. */
  function Hex(n: nat, width: nat): string
    decreases n, width
  {
    if n < 16 && width <= 1 then [HexDigit(n)]
    else Hex(n / 16, if width > 0 then width - 1 else 0) + [HexDigit(n % 16)]
  }

  function EscapeCategory(c: char, category: Classifier): string {
    match category(c)
    case Control => "\\x" + Hex(c as nat, 2)
    case OtherCategory => [c]
    case _ => if c as nat <= 0xFFFF then "\\u" + Hex(c as nat, 4) else "\\U" + Hex(c as nat, 8)
  }

  function EscapeCodeBlock(s: string, category: Classifier): string {
    if s == "" then ""
    else (if s[0] == '\n' || s[0] == '\t' then [s[0]] else EscapeCategory(s[0], category))
         + EscapeCodeBlock(s[1..], category)
  }

  function EscapeControls(s: string, category: Classifier): string {
    if s == "" then ""
    else (if s[0] == '\n' then "\\n" else if s[0] == '\r' then "\\r" else if s[0] == '\t' then "\\t"
          else EscapeCategory(s[0], category))
         + EscapeControls(s[1..], category)
  }

  // Fenced blocks.

  predicate LanguageChar(c: char) {
    'A' <= c <= 'Z' || 'a' <= c <= 'z' || '0' <= c <= '9' || c in "_+.#-"
  }

  /** `^[A-Za-z0-9_+.#-]{1,40}$`, as a full match */
  predicate SafeLanguage(s: string) {
    1 <= |s| <= 40 && forall i | 0 <= i < |s| :: LanguageChar(s[i])
  }

  function StripLeft(s: string): (r: string)
    ensures |r| <= |s|
  {
    if s != "" && IsSpace(s[0]) then StripLeft(s[1..]) else s
  }

  function StripRight(s: string): string {
    if s != "" && IsSpace(s[|s| - 1]) then StripRight(s[..|s| - 1]) else s
  }

  function Language(language: string): (lang: string)
    ensures lang == "" || SafeLanguage(lang)
  {
    var lang := StripRight(StripLeft(language));
    if SafeLanguage(lang) then lang else ""
  }

  function FenceSize(content: string): nat {
    if MaxBacktickRun(content) + 1 < 3 then 3 else MaxBacktickRun(content) + 1
  }

  /** The block for content that is already escaped. */
  function Fenced(lang: string, content: string): string {
    var fence := Repeat('`', FenceSize(content));
    fence + lang + "\n" + content + (if EndsWith(content, "\n") then "" else "\n") + fence
  }

  function MarkdownCodeBlock(language: string, content: string, escape: bool, category: Classifier): string {
    Fenced(Language(language), if escape then EscapeCodeBlock(content, category) else content)
  }

  lemma OpeningLine(lang: string, n: nat)
    requires n >= 3 && (lang == "" || SafeLanguage(lang))
    ensures BreakFree(Repeat('`', n) + lang)
    ensures Transition(Repeat('`', n) + lang, None) == (Some(Fence('`', n)), true)
  {
    var line := Repeat('`', n) + lang;
    forall i | 0 <= i < |line| ensures !IsBreak(line[i]) {
      if i >= n { assert line[i] == lang[i - n]; }
    }
    var m := FenceLine(0, Fence('`', n), lang);
    assert line == Repeat(' ', 0) + Repeat('`', n) + lang;
    CarriageReturnBreaks();
    FenceIsMatched(line, m);
  }

  lemma ClosingLine(n: nat)
    requires n >= 3
    ensures Transition(Repeat('`', n), Some(Fence('`', n))) == (None, true)
  {
    OpeningLine("", n);
    var line := Repeat('`', n);
    assert line == Repeat(' ', 0) + Repeat('`', n) + "";
    CarriageReturnBreaks();
    FenceIsMatched(line, FenceLine(0, Fence('`', n), ""));
  }

  /** A line without a long enough run cannot close the block. */
  lemma InnerLine(line: string, n: nat)
    requires BreakFree(line) && !HasRun(line, n)
    ensures Transition(line, Some(Fence('`', n))) == (Some(Fence('`', n)), false)
  {
    CarriageReturnBreaks();
    var found := MatchFence(line);
    if found.Some? && found.value.fence.marker == '`' && found.value.fence.size >= n {
      var m := found.value;
      MatchedIsFence(line, m);
      assert forall j | m.indent <= j < m.indent + n :: line[j] == '`';
      assert RunAt(line, m.indent, n);
    }
  }

  /** The content as it stands between the fences. */
  function Enclosed(content: string): string {
    content + (if EndsWith(content, "\n") then "" else "\n")
  }

  lemma EnclosedRuns(content: string, k: nat)
    requires HasRun(Enclosed(content), k) && k > 0
    ensures HasRun(content, k)
  {
    var i :| RunAt(Enclosed(content), i, k);
    var text := Enclosed(content);
    assert text[i + k - 1] == '`';
    assert |text| > |content| ==> text[|content|] == '\n';
    assert forall j | 0 <= j < |content| :: text[j] == content[j];
    assert RunAt(content, i, k);
  }

  lemma FencedText(lang: string, content: string)
    requires lang == "" || SafeLanguage(lang)
    ensures var fence := Repeat('`', FenceSize(content));
            && BreakFree(fence + lang) && BreakFree(fence) && fence != ""
            && Enclosed(content) != "" && Enclosed(content)[|Enclosed(content)| - 1] == '\n'
            && Fenced(lang, content) == Line(fence + lang, "\n").Text() + (Enclosed(content) + fence)
  {
    hide BreakFree, Transition, SafeLanguage, MaxBacktickRun;
    var fence := Repeat('`', FenceSize(content));
    OpeningLine(lang, |fence|);
    OpeningLine("", |fence|);
    assert fence + "" == fence;
  }

  lemma BlockLines(lang: string, content: string)
    requires lang == "" || SafeLanguage(lang)
    ensures var fence := Repeat('`', FenceSize(content));
            Bodies(SplitLines(Fenced(lang, content))) ==
              [fence + lang] + Bodies(SplitLines(Enclosed(content))) + [fence]
  {
    hide *;
    var fence, inner := Repeat('`', FenceSize(content)), Enclosed(content);
    var first := Line(fence + lang, "\n");
    FencedText(lang, content);
    SplitFramed(first, inner, fence);
    BodiesFramed(first, SplitLines(inner), Line(fence, ""));
  }

  lemma BodiesFramed(first: Line, inner: seq<Line>, last: Line)
    ensures Bodies([first] + inner + [last]) == [first.body] + Bodies(inner) + [last.body]
  {
  }

  lemma {:induction false} InnerStates(lines: seq<string>, rest: seq<string>, n: nat)
    requires forall i | 0 <= i < |lines| :: BreakFree(lines[i]) && !HasRun(lines[i], n)
    ensures var open := Some(Fence('`', n));
            States(lines + rest, open) == Repeat(open, |lines|) + States(rest, open)
  {
    var open := Some(Fence('`', n));
    if lines == [] {
      assert lines + rest == rest;
    } else {
      InnerLine(lines[0], n);
      InnerStates(lines[1..], rest, n);
      assert (lines + rest)[1..] == lines[1..] + rest;
      assert Repeat(open, |lines|) == [open] + Repeat(open, |lines| - 1);
    }
  }

  /** No line of the content holds a run as long as the fence. */
  lemma InnerLinesAreShort(content: string)
    ensures forall i | 0 <= i < |Splitlines(Enclosed(content))| ::
              BreakFree(Splitlines(Enclosed(content))[i]) &&
              !HasRun(Splitlines(Enclosed(content))[i], FenceSize(content))
  {
    var n, lines := FenceSize(content), SplitLines(Enclosed(content));
    SplitIsWell(Enclosed(content));
    MaxRunExact(content, n);
    forall i | 0 <= i < |lines| ensures !HasRun(lines[i].body, n) {
      if HasRun(lines[i].body, n) {
        RunInLine(lines, i, n);
        EnclosedRuns(content, n);
      }
    }
  }

  /** Whatever the content, a scanner sees one fenced block: it opens on the first line, closes
      on the last line and nowhere else, and the lines between are the content's own lines. */
  lemma FencedBlockContains(lang: string, content: string)
    requires lang == "" || SafeLanguage(lang)
    ensures var n, inner := FenceSize(content), Splitlines(Enclosed(content));
            var lines, open := Splitlines(Fenced(lang, content)), Some(Fence('`', n));
            && lines == [Repeat('`', n) + lang] + inner + [Repeat('`', n)]
            && States(lines, None) == [open] + Repeat(open, |inner|) + [None]
  {
    var n, inner := FenceSize(content), Splitlines(Enclosed(content));
    var open, fence := Some(Fence('`', n)), Repeat('`', n);
    BlockLines(lang, content);
    InnerLinesAreShort(content);
    InnerStates(inner, [fence], n);
    OpeningLine(lang, n);
    ClosingLine(n);
    FramedStates(fence + lang, inner, fence, open);
  }

  lemma FramedStates(first: string, inner: seq<string>, last: string, open: Option<Fence>)
    requires Transition(first, None).0 == open && Transition(last, open).0 == None
    requires States(inner + [last], open) == Repeat(open, |inner|) + States([last], open)
    ensures States([first] + inner + [last], None) == [open] + Repeat(open, |inner|) + [None]
  {
    hide Transition, Repeat, States;
    assert [first] + inner + [last] == [first] + (inner + [last]) && [last] == [last] + [];
    NoStates(None);
    StatesStep(last, [], open);
    StatesStep(first, inner + [last], None);
  }

  lemma NoStates(open: Option<Fence>)
    ensures States([], open) == []
  {
  }

  lemma StatesStep(line: string, rest: seq<string>, open: Option<Fence>)
    ensures States([line] + rest, open) ==
            [Transition(line, open).0] + States(rest, Transition(line, open).0)
  {
    hide Transition;
    assert ([line] + rest)[1..] == rest;
  }

  lemma LanguageIsSafe(language: string)
    ensures Language(language) == "" || SafeLanguage(Language(language))
  {
  }

  /** The public entry point: for every language text, content and escape setting the block
      is closed again, and what it encloses is the (escaped) content. */
  lemma CodeBlockContains(language: string, content: string, escape: bool, category: Classifier)
    ensures var text := if escape then EscapeCodeBlock(content, category) else content;
            var block := MarkdownCodeBlock(language, content, escape, category);
            var lines := Splitlines(block);
            && |lines| >= 2 && lines[1..|lines| - 1] == Splitlines(Enclosed(text))
            && FinalState(lines, None) == None
            && (forall i | 0 <= i < |lines| - 1 :: States(lines, None)[i] == Some(Fence('`', FenceSize(text))))
  {
    hide FinalState, States, FenceSize, Enclosed, Splitlines, Repeat, EscapeCodeBlock, SafeLanguage, Fenced, Language;
    var text := if escape then EscapeCodeBlock(content, category) else content;
    LanguageIsSafe(language);
    FencedBlockContains(Language(language), text);
    var lines, inner := Splitlines(MarkdownCodeBlock(language, content, escape, category)), Splitlines(Enclosed(text));
    FinalStateIsLast(lines, None);
    Middle(Repeat('`', FenceSize(text)) + Language(language), inner, Repeat('`', FenceSize(text)));
  }

  lemma Middle<T>(first: T, inner: seq<T>, last: T)
    ensures var s := [first] + inner + [last];
            |s| == |inner| + 2 && s[1..|s| - 1] == inner
  {
  }

  lemma {:induction false} FinalStateIsLast(lines: seq<string>, open: Option<Fence>)
    ensures FinalState(lines, open) == if lines == [] then open else States(lines, open)[|lines| - 1]
  {
    if lines != [] {
      FinalStateIsLast(lines[1..], Transition(lines[0], open).0);
    }
  }
}
