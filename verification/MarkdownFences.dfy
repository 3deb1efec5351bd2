/** The fenced-code state machine, against the fence grammar of section 4.5 of CommonMark
    0.31.2. */
module MarkdownFences {
  import opened PyText
  import opened Json
  import opened Collections
  import opened MarkdownLines

  /** An open fence: its marker character and the length of its run. */
  datatype Fence = Fence(marker: char, size: nat)

  /** The parts of a line that looks like a code fence. */
  datatype FenceLine = FenceLine(indent: nat, fence: Fence, suffix: string)

  function RunLength(s: string, c: char): (n: nat)
    ensures n <= |s| && (n < |s| ==> s[n] != c)
    ensures forall i | 0 <= i < n :: s[i] == c
  {
    if s == "" || s[0] != c then 0 else 1 + RunLength(s[1..], c)
  }

  /** `$` also matches before a final line feed, which `[^\n]*` leaves out. */
  function SuffixOf(rest: string): Option<string> {
    if '\n' !in rest then Some(rest)
    else if '\n' !in rest[..|rest| - 1] then Some(rest[..|rest| - 1])
    else None
  }

  /** `^ {0,3}(`{3,}|~{3,})([^\n]*)$` */
  function MatchFence(line: string): Option<FenceLine> {
    var indent := RunLength(line, ' ');
    if indent > 3 || indent == |line| then None
    else
      var marker := line[indent];
      var size := RunLength(line[indent..], marker);
      if (marker != '`' && marker != '~') || size < 3 then None
      else match SuffixOf(line[indent + size..])
        case None => None
        case Some(suffix) => Some(FenceLine(indent, Fence(marker, size), suffix))
  }

  /** Returns the updated open fence, and whether this line is a fence. */
  function Transition(line: string, open: Option<Fence>): (Option<Fence>, bool) {
    match MatchFence(line)
    case None => (open, false)
    case Some(m) =>
      if open.None? then
        if m.fence.marker == '`' && '`' in m.suffix then (open, false) else (Some(m.fence), true)
      else if m.fence.marker != open.value.marker || m.fence.size < open.value.size then (open, false)
      else if !Blank(m.suffix) then (open, false)
      else (None, true)
  }

  // The grammar, stated on its own.

  /** A code fence: at most three spaces, three or more equal markers, then the rest. */
  predicate CodeFence(line: string, m: FenceLine) {
    && m.indent <= 3 && m.fence.size >= 3 && (m.fence.marker == '`' || m.fence.marker == '~')
    && line == Repeat(' ', m.indent) + Repeat(m.fence.marker, m.fence.size) + m.suffix
    && (m.suffix != "" ==> m.suffix[0] != m.fence.marker)
  }

  lemma SuffixIsRest(line: string, from: nat)
    requires from <= |line| && '\n' !in line
    ensures SuffixOf(line[from..]) == Some(line[from..])
  {
  }

  lemma FenceIsMatched(line: string, m: FenceLine)
    requires '\n' !in line && CodeFence(line, m)
    ensures MatchFence(line) == Some(m)
  {
    hide SuffixOf, RunLength;
    var k, n := m.indent, m.fence.size;
    var tail := Repeat(m.fence.marker, n) + m.suffix;
    assert line == Repeat(' ', k) + tail;
    assert line[k] == tail[0] == m.fence.marker;
    RunLengthIs(line, ' ', k);
    assert line[k..] == tail;
    RunLengthIs(tail, m.fence.marker, n);
    assert line[k + n..] == m.suffix;
    SuffixIsRest(line, k + n);
  }

  lemma MatchedIsFence(line: string, m: FenceLine)
    requires '\n' !in line && MatchFence(line) == Some(m)
    ensures CodeFence(line, m)
  {
    var k, n := m.indent, m.fence.size;
    SuffixIsRest(line, k + n);
    hide SuffixOf;
    assert line[k..][..n] == Repeat(m.fence.marker, n);
    assert line[..k] == Repeat(' ', k);
    assert line == line[..k] + line[k..][..n] + line[k + n..];
    if k + n < |line| { assert line[k..][n] == line[k + n]; }
  }

  /** On lines without a line feed, the pattern finds the unique code fence there is. */
  lemma MatchFenceExact(line: string, m: FenceLine)
    requires '\n' !in line
    ensures MatchFence(line) == Some(m) <==> CodeFence(line, m)
  {
    if CodeFence(line, m) { FenceIsMatched(line, m); }
    if MatchFence(line) == Some(m) { MatchedIsFence(line, m); }
  }

  lemma {:induction false} RunLengthIs(s: string, c: char, n: nat)
    requires n <= |s| && (forall i | 0 <= i < n :: s[i] == c) && (n < |s| ==> s[n] != c)
    ensures RunLength(s, c) == n
  {
    if n > 0 {
      RunLengthIs(s[1..], c, n - 1);
    }
  }

  predicate SpacesAndTabs(s: string) {
    forall i | 0 <= i < |s| :: s[i] == ' ' || s[i] == '\t'
  }

  /** A line opens a fenced block: the info string of a backtick fence has no backtick. */
  ghost predicate Opens(line: string, fence: Fence) {
    exists m :: CodeFence(line, m) && m.fence == fence && (fence.marker == '`' ==> '`' !in m.suffix)
  }

  /** A line closes a block opened by `open`: same marker, at least as long, nothing after it
      but spaces and tabs. */
  ghost predicate Closes(line: string, open: Fence) {
    exists m :: CodeFence(line, m) && m.fence.marker == open.marker && m.fence.size >= open.size
                && SpacesAndTabs(m.suffix)
  }

  /** A line that would close `open` but for whitespace that is neither a space nor a tab. */
  ghost predicate ExoticClose(line: string, open: Fence) {
    exists m :: CodeFence(line, m) && m.fence.marker == open.marker && m.fence.size >= open.size
                && Blank(m.suffix) && !SpacesAndTabs(m.suffix)
  }

  /** The state machine follows the grammar exactly, except on exotic closing lines: those it
      takes for closing fences. */
  lemma FollowsGrammar(line: string, open: Option<Fence>)
    requires '\n' !in line
    ensures open.None? ==>
      (forall f :: Transition(line, open) == (Some(f), true) <==> Opens(line, f)) &&
      (Transition(line, open).0.None? <==> forall f :: !Opens(line, f))
    ensures open.Some? ==>
      && (Transition(line, open) == (None, true) <==> Closes(line, open.value) || ExoticClose(line, open.value))
      && (Transition(line, open) == (open, false) <==> !Closes(line, open.value) && !ExoticClose(line, open.value))
  {
    forall m ensures MatchFence(line) == Some(m) <==> CodeFence(line, m) {
      MatchFenceExact(line, m);
    }
    var found := MatchFence(line);
    if found.Some? {
      var m := found.value;
      assert CodeFence(line, m);
      if SpacesAndTabs(m.suffix) { assert Blank(m.suffix); }
      if open.None? && !(m.fence.marker == '`' && '`' in m.suffix) {
        assert Opens(line, m.fence);
      }
    }
  }

  /** The exception occurs: a no-break space behind three backticks closes a block that the
      grammar leaves open. */
  lemma NoBreakSpaceCloses()
    ensures var open, line := Fence('`', 3), "```\U{A0}";
            Transition(line, Some(open)) == (None, true) && ExoticClose(line, open) && !Closes(line, open)
  {
    var open, line := Fence('`', 3), "```\U{A0}";
    var m := FenceLine(0, open, "\U{A0}");
    assert CodeFence(line, m);
    MatchFenceExact(line, m);
    forall other ensures CodeFence(line, other) ==> other == m { MatchFenceExact(line, other); }
    assert m.suffix[0] == '\U{A0}';
  }

  // Scanning a text.

  function Bodies(lines: seq<Line>): (bodies: seq<string>)
    ensures |bodies| == |lines|
  {
    seq(|lines|, i requires 0 <= i < |lines| => lines[i].body)
  }

  /** `text.splitlines()` */
  function Splitlines(text: string): seq<string> {
    Bodies(SplitLines(text))
  }

  /** The open fence after each line. */
  function States(lines: seq<string>, open: Option<Fence>): (states: seq<Option<Fence>>)
    ensures |states| == |lines|
  {
    if lines == [] then []
    else
      var next := Transition(lines[0], open).0;
      [next] + States(lines[1..], next)
  }

  function FinalState(lines: seq<string>, open: Option<Fence>): Option<Fence> {
    if lines == [] then open else FinalState(lines[1..], Transition(lines[0], open).0)
  }

  method OpenMarkdownFence(markdown: string) returns (open: Option<Fence>)
    ensures open == FinalState(Splitlines(markdown), None)
  {
    open := None;
    var lines := Splitlines(markdown);
    assert lines[0..] == lines;
    for i := 0 to |lines|
      invariant FinalState(lines[i..], open) == FinalState(lines, None)
    {
      open := Transition(lines[i], open).0;
      assert lines[i..][1..] == lines[i + 1..];
    }
  }
}
