/** The two line-by-line neutralisers, and what they do to the fences of the document. */
module MarkdownNeutral {
  import opened PyText
  import opened Json
  import opened Collections
  import opened MarkdownLines
  import opened MarkdownFences
  import opened MarkdownBlocks

  // What the loops see of a line.

  predicate IsNewline(ending: string) {
    ending == "\n" || ending == "\r" || ending == "\r\n"
  }

  /** `raw_line.rstrip("\r\n")`: other line endings stay part of the line. */
  function Seen(l: Line): string {
    if IsNewline(l.ending) then l.body else l.body + l.ending
  }

  /** `raw_line[len(line):]` */
  function Unseen(l: Line): string {
    if IsNewline(l.ending) then l.ending else ""
  }

  // Suggestion fences.

  predicate StartsSuggestion(suffix: string) {
    var t := StripLeft(suffix);
    |t| >= 10 && forall i | 0 <= i < 10 :: LowerAscii(t[i]) == "suggestion"[i]
  }

  /** A backtick fence whose info string starts with `suggestion`. */
  predicate SuggestionFence(line: string) {
    match MatchFence(line)
    case None => false
    case Some(m) => m.fence.marker == '`' && '`' !in m.suffix && StartsSuggestion(m.suffix)
  }

  /** The line that replaces a suggestion fence. */
  function TextFence(m: FenceLine): string {
    Repeat(' ', m.indent) + Repeat('`', m.fence.size) + "text"
  }

  function NeutralLine(l: Line): Line {
    if SuggestionFence(Seen(l)) then Line(TextFence(MatchFence(Seen(l)).value), Unseen(l)) else l
  }

  function NeutralLines(lines: seq<Line>): (r: seq<Line>)
    ensures |r| == |lines|
  {
    seq(|lines|, i requires 0 <= i < |lines| => NeutralLine(lines[i]))
  }

  function Neutralized(text: string): string {
    JoinLines(NeutralLines(SplitLines(text)))
  }

  lemma JoinNext(lines: seq<Line>, i: nat)
    requires i < |lines|
    ensures JoinLines(lines[..i + 1]) == JoinLines(lines[..i]) + lines[i].Text()
  {
    assert lines[..i + 1] == lines[..i] + [lines[i]];
    JoinAppend(lines[..i], [lines[i]]);
    assert JoinLines([lines[i]]) == lines[i].Text() + JoinLines([]);
  }

  method NeutralizeSuggestionFences(text: string) returns (r: string)
    ensures r == Neutralized(text)
  {
    hide MatchFence, StartsSuggestion, TextFence, SplitLines, JoinLines, Seen, Unseen;
    var lines := SplitLines(text);
    ghost var all := NeutralLines(lines);
    r := "";
    JoinNone();
    for i := 0 to |lines|
      invariant r == JoinLines(all[..i])
    {
      var line := Seen(lines[i]);
      var found := MatchFence(line);
      JoinNext(all, i);
      if found.Some? && found.value.fence.marker == '`' && '`' !in found.value.suffix
         && StartsSuggestion(found.value.suffix) {
        r := r + (TextFence(found.value) + Unseen(lines[i]));
      } else {
        r := r + lines[i].Text();
      }
    }
    assert all[..|lines|] == all;
  }

  lemma JoinNone()
    ensures JoinLines([]) == ""
  {
  }

  // Joining lines some of which lost their ending.

  /** Lines as they come apart again after joining: a line without an ending runs into the
      next one. */
  function Merge(lines: seq<Line>): (r: seq<Line>)
    ensures lines != [] ==> r != []
  {
    if |lines| <= 1 then lines
    else
      var rest := Merge(lines[1..]);
      if lines[0].ending != "" then [lines[0]] + rest
      else [Line(lines[0].body + rest[0].body, rest[0].ending)] + rest[1..]
  }

  predicate Mergeable(lines: seq<Line>) {
    && (forall i | 0 <= i < |lines| :: BreakFree(lines[i].body) && IsEnding(lines[i].ending) && lines[i].Text() != "")
    && (forall i | 0 <= i < |lines| - 1 :: lines[i].ending == "\r" ==> lines[i + 1].Text()[0] != '\n')
  }

  lemma Prepend(p: string, s: string)
    requires BreakFree(p) && s != ""
    ensures var lines := SplitLines(s);
            SplitLines(p + s) == [Line(p + lines[0].body, lines[0].ending)] + lines[1..]
  {
    hide BreakFree, SplitLines, FirstLine, IsEnding;
    var first := FirstLine(s);
    var rest := s[|first.Text()|..];
    FirstLineIsLine(s);
    SplitFirst(first, rest);
    var longer := Line(p + first.body, first.ending);
    assert p + s == longer.Text() + rest;
    BreakFreeAppend(p, first.body);
    SplitFirst(longer, rest);
  }

  lemma BreakFreeAppend(a: string, b: string)
    requires BreakFree(a) && BreakFree(b)
    ensures BreakFree(a + b)
  {
    hide IsBreak;
    forall i | 0 <= i < |a + b| ensures !IsBreak((a + b)[i]) {
      if i >= |a| { assert (a + b)[i] == b[i - |a|]; } else { assert (a + b)[i] == a[i]; }
    }
  }

  lemma {:induction false} SplitMerged(lines: seq<Line>)
    requires Mergeable(lines)
    ensures SplitLines(JoinLines(lines)) == Merge(lines)
  {
    hide BreakFree, SplitLines, IsEnding;
    if |lines| == 1 {
      assert lines == [lines[0]];
      assert JoinLines(lines) == lines[0].Text() + "";
      SplitFirst(lines[0], "");
    } else if |lines| > 1 {
      var rest := lines[1..];
      SplitMerged(rest);
      assert JoinLines(rest) == rest[0].Text() + JoinLines(rest[1..]);
      assert JoinLines(rest)[0] == rest[0].Text()[0];
      if lines[0].ending != "" {
        SplitFirst(lines[0], JoinLines(rest));
      } else {
        assert JoinLines(lines) == lines[0].body + JoinLines(rest);
        Prepend(lines[0].body, JoinLines(rest));
      }
    }
  }

  /** Merging keeps the number of lines exactly when every line but the last has an ending. */
  lemma {:induction false} MergeCount(lines: seq<Line>)
    ensures |Merge(lines)| <= |lines|
    ensures |Merge(lines)| == |lines| <==> forall i | 0 <= i < |lines| - 1 :: lines[i].ending != ""
    ensures |Merge(lines)| == |lines| ==> Merge(lines) == lines
  {
    if |lines| > 1 {
      var rest := lines[1..];
      MergeCount(rest);
      assert (forall i | 0 <= i < |lines| - 1 :: lines[i].ending != "") <==>
             lines[0].ending != "" && (forall i | 0 <= i < |rest| - 1 :: rest[i].ending != "") by {
        assert forall i | 0 <= i < |rest| :: rest[i] == lines[i + 1];
      }
    }
  }

  // What a suggestion fence becomes.

  /** A line that starts like the replacement fence is no suggestion fence, whatever follows. */
  lemma TextFenceIsQuiet(m: FenceLine, more: string)
    requires m.indent <= 3 && m.fence.size >= 3 && m.fence.marker == '`'
    requires '\n' !in more
    ensures !SuggestionFence(TextFence(m) + more)
    ensures MatchFence(TextFence(m) + more) == Some(FenceLine(m.indent, m.fence, "text" + more))
  {
    var line, n := TextFence(m) + more, FenceLine(m.indent, m.fence, "text" + more);
    assert line == Repeat(' ', m.indent) + Repeat('`', m.fence.size) + ("text" + more);
    FenceIsMatched(line, n);
    assert n.suffix[0] == 't' && !IsSpace('t');
    assert StripLeft(n.suffix) == n.suffix;
  }

  /** A line as seen ends with its text, and at most one exotic line ending. */
  lemma SeenHasNoNewline(l: Line)
    requires BreakFree(l.body) && IsEnding(l.ending)
    ensures '\n' !in Seen(l) && '\r' !in Seen(l)
    ensures Seen(l) == l.body + (if IsNewline(l.ending) then "" else l.ending)
  {
    CarriageReturnBreaks();
    forall i | 0 <= i < |Seen(l)| ensures Seen(l)[i] != '\n' && Seen(l)[i] != '\r' {
      if i < |l.body| { assert Seen(l)[i] == l.body[i]; }
    }
  }

  lemma BodyHasNoNewline(l: Line)
    requires BreakFree(l.body)
    ensures '\n' !in l.body
  {
    CarriageReturnBreaks();
  }

  lemma EndingIsSpace(ending: string)
    requires IsEnding(ending) && ending != "" && !IsNewline(ending)
    ensures |ending| == 1 && IsBreak(ending[0]) && IsSpace(ending[0])
    ensures ending[0] != '`' && ending[0] != '~' && ending[0] != ' '
  {
    BreaksAreSpaces(ending[0]);
  }

  lemma BreaksAreSpaces(c: char)
    requires IsBreak(c)
    ensures IsSpace(c) && c != '`' && c != '~' && c != ' ' && c != '/'
  {
  }

  lemma {:induction false} StripKeepsNonBlank(s: string, tail: string)
    requires Blank(s)
    ensures StripLeft(s + tail) == StripLeft(tail)
  {
    if s == "" {
      assert s + tail == tail;
    } else {
      assert (s + tail)[1..] == s[1..] + tail;
      assert forall i | 0 <= i < |s[1..]| :: s[1..][i] == s[i + 1];
      StripKeepsNonBlank(s[1..], tail);
    }
  }

  /** A tail that cannot belong to the head lies behind it. */
  lemma HeadFits(head: string, suffix: string, body: string, tail: string)
    requires head + suffix == body + tail && |tail| <= 1
    requires tail != "" ==> tail[0] !in head
    ensures |head| <= |body| && body == head + body[|head|..] && suffix == body[|head|..] + tail
  {
    var s := head + suffix;
    assert forall i | 0 <= i < |head| :: s[i] == head[i];
    assert tail != "" ==> s[|body|] == tail[0];
    assert |head| <= |body|;
    assert body == s[..|body|];
    assert suffix == s[|head|..];
  }

  /** The match of a line as seen, told from the match of its text. */
  lemma SeenMatch(l: Line, m: FenceLine)
    requires BreakFree(l.body) && IsEnding(l.ending) && MatchFence(Seen(l)) == Some(m)
    ensures exists s :: MatchFence(l.body) == Some(FenceLine(m.indent, m.fence, s))
                        && m.suffix == s + (if IsNewline(l.ending) then "" else l.ending)
  {
    SeenHasNoNewline(l);
    MatchedIsFence(Seen(l), m);
    BodyHasNoNewline(l);
    var tail := if IsNewline(l.ending) then "" else l.ending;
    if tail != "" { EndingIsSpace(l.ending); }
    hide MatchFence, IsBreak, BreakFree, IsEnding, IsNewline;
    var head := Repeat(' ', m.indent) + Repeat(m.fence.marker, m.fence.size);
    HeadFits(head, m.suffix, l.body, tail);
    var s := l.body[|head|..];
    assert s != "" ==> m.suffix[0] == s[0];
    FenceIsMatched(l.body, FenceLine(m.indent, m.fence, s));
  }

  /** The text of a suggestion fence is an opening fence with a non-blank info string. */
  lemma SuggestionBody(l: Line) returns (m: FenceLine, s: string)
    requires BreakFree(l.body) && IsEnding(l.ending) && SuggestionFence(Seen(l))
    ensures MatchFence(Seen(l)) == Some(m) && MatchFence(l.body) == Some(FenceLine(m.indent, m.fence, s))
    ensures m.indent <= 3 && m.fence.size >= 3 && m.fence.marker == '`' && !Blank(s) && '`' !in s
  {
    m := MatchFence(Seen(l)).value;
    var tail := if IsNewline(l.ending) then "" else l.ending;
    SeenMatch(l, m);
    SeenHasNoNewline(l);
    MatchedIsFence(Seen(l), m);
    hide MatchFence, Seen, IsBreak, StartsSuggestion;
    s :| MatchFence(l.body) == Some(FenceLine(m.indent, m.fence, s)) && m.suffix == s + tail;
    if tail != "" { EndingIsSpace(tail); }
    if Blank(s) { BlankIsNoSuggestion(s, tail); }
    assert forall i | 0 <= i < |s| :: s[i] == m.suffix[i];
  }

  /** Replacing a suggestion fence does not change what the line does to the open fence. */
  lemma NeutralTransition(l: Line, open: Option<Fence>)
    requires BreakFree(l.body) && IsEnding(l.ending)
    ensures Transition(NeutralLine(l).body, open) == Transition(l.body, open)
  {
    hide SuggestionFence, Seen, MatchFence, IsBreak, IsSpace, IsEnding, BreakFree;
    if SuggestionFence(Seen(l)) {
      var m, s := SuggestionBody(l);
      TextFenceMatches(m);
      OpensAlike(l.body, FenceLine(m.indent, m.fence, s), TextFence(m), FenceLine(m.indent, m.fence, "text"), open);
    }
  }

  lemma TextFenceMatches(m: FenceLine)
    requires m.indent <= 3 && m.fence.size >= 3 && m.fence.marker == '`'
    ensures MatchFence(TextFence(m)) == Some(FenceLine(m.indent, m.fence, "text"))
    ensures !Blank("text") && '`' !in "text"
  {
    hide MatchFence, TextFence, SuggestionFence;
    TextFenceIsQuiet(m, "");
    assert TextFence(m) + "" == TextFence(m) && "text" + "" == "text";
    assert !IsSpace("text"[0]);
  }

  /** Opening fences with one marker and length do the same to the open fence. */
  lemma OpensAlike(a: string, m: FenceLine, b: string, n: FenceLine, open: Option<Fence>)
    requires MatchFence(a) == Some(m) && MatchFence(b) == Some(n) && m.fence == n.fence
    requires '`' !in m.suffix && '`' !in n.suffix && !Blank(m.suffix) && !Blank(n.suffix)
    ensures Transition(a, open) == Transition(b, open)
  {
    hide MatchFence, Blank;
  }

  lemma BlankIsNoSuggestion(s: string, tail: string)
    requires Blank(s) && |tail| <= 1 && (tail != "" ==> IsBreak(tail[0]))
    ensures !StartsSuggestion(s + tail)
  {
    StripKeepsNonBlank(s, tail);
    if tail != "" {
      BreaksAreSpaces(tail[0]);
      assert tail[1..] == "" && StripLeft("") == "";
    }
  }

  /** The shape of every line that lost its ending: it starts like the replacement fence. */
  ghost predicate Quieted(l: Line) {
    exists m: FenceLine :: m.indent <= 3 && m.fence.size >= 3 && m.fence.marker == '`' && l.body == TextFence(m)
  }

  lemma NeutralLineFacts(l: Line)
    requires BreakFree(l.body) && IsEnding(l.ending) && l.Text() != ""
    ensures var r := NeutralLine(l);
            && BreakFree(r.body) && IsEnding(r.ending) && r.Text() != ""
            && (r == l || Quieted(r))
            && (r.ending == "" <==> l.ending == "" || (SuggestionFence(Seen(l)) && !IsNewline(l.ending)))
            && (r.ending != "" ==> r.ending == l.ending)
            && (r.Text()[0] == '\n' ==> r == l)
            && !SuggestionFence(Seen(r))
  {
    CarriageReturnBreaks();
    if SuggestionFence(Seen(l)) {
      var m := MatchFence(Seen(l)).value;
      SeenHasNoNewline(l);
      MatchedIsFence(Seen(l), m);
      TextFenceIsQuiet(m, "");
      assert TextFence(m) + "" == TextFence(m);
      TextFenceBreakFree(m);
    }
  }

  lemma TextFenceBreakFree(m: FenceLine)
    requires m.fence.marker == '`' && m.fence.size >= 3
    ensures BreakFree(TextFence(m)) && TextFence(m) != "" && TextFence(m)[0] != '\n'
  {
    var line := TextFence(m);
    forall i | 0 <= i < |line| ensures !IsBreak(line[i]) {
      if i >= m.indent + m.fence.size {
        assert line[i] == "text"[i - m.indent - m.fence.size];
      }
    }
  }

  // The document as a whole.

  /** Some suggestion fence before the last line ends with a break that `rstrip` keeps. */
  predicate LosesBreaks(lines: seq<Line>) {
    exists i :: 0 <= i < |lines| - 1 && SuggestionFence(Seen(lines[i])) && !IsNewline(lines[i].ending)
  }

  lemma NeutralLinesMerge(text: string)
    ensures var lines := SplitLines(text);
            var r := NeutralLines(lines);
            && WellSplit(lines) && Mergeable(r)
            && (forall i | 0 <= i < |r| - 1 && r[i].ending == "" :: Quieted(r[i]))
            && (forall i | 0 <= i < |r| :: !SuggestionFence(Seen(r[i])))
            && (LosesBreaks(lines) <==> exists i :: 0 <= i < |r| - 1 && r[i].ending == "")
  {
    SplitIsWell(text);
    var lines := SplitLines(text);
    var r := NeutralLines(lines);
    hide NeutralLine, SuggestionFence, Seen, Quieted, BreakFree, IsEnding, SplitLines, IsNewline;
    forall i | 0 <= i < |r|
      ensures BreakFree(r[i].body) && IsEnding(r[i].ending) && r[i].Text() != ""
      ensures r[i] == lines[i] || Quieted(r[i])
      ensures !SuggestionFence(Seen(r[i]))
      ensures i < |r| - 1 ==>
        (r[i].ending == "" <==> SuggestionFence(Seen(lines[i])) && !IsNewline(lines[i].ending))
    {
      NeutralLineFacts(lines[i]);
    }
    forall i | 0 <= i < |r| - 1 && r[i].ending == "\r" ensures r[i + 1].Text()[0] != '\n' {
      NeutralLineFacts(lines[i]);
      NeutralLineFacts(lines[i + 1]);
    }
  }

  /** Merging keeps every line from being a suggestion fence. */
  lemma {:induction false} MergeStaysQuiet(lines: seq<Line>)
    requires Mergeable(lines)
    requires forall i | 0 <= i < |lines| - 1 && lines[i].ending == "" :: Quieted(lines[i])
    requires forall i | 0 <= i < |lines| :: !SuggestionFence(Seen(lines[i]))
    ensures forall i | 0 <= i < |Merge(lines)| :: !SuggestionFence(Seen(Merge(lines)[i]))
  {
    hide SuggestionFence, Seen, Quieted, BreakFree, IsEnding, SplitLines, JoinLines;
    if |lines| > 1 {
      var rest, merged := lines[1..], Merge(lines[1..]);
      MergeStaysQuiet(rest);
      if lines[0].ending == "" {
        SplitMerged(rest);
        SplitIsWell(JoinLines(rest));
        MergedIsQuiet(lines[0], merged[0]);
      }
    }
  }

  lemma MergedIsQuiet(first: Line, next: Line)
    requires Quieted(first) && BreakFree(next.body) && IsEnding(next.ending)
    ensures !SuggestionFence(Seen(Line(first.body + next.body, next.ending)))
  {
    hide SuggestionFence, TextFence, MatchFence, Seen, BreakFree, IsEnding;
    var m: FenceLine :| m.indent <= 3 && m.fence.size >= 3 && m.fence.marker == '`' && first.body == TextFence(m);
    SeenHasNoNewline(next);
    TextFenceIsQuiet(m, Seen(next));
    SeenAppend(first.body, next);
  }

  lemma SeenAppend(before: string, l: Line)
    ensures Seen(Line(before + l.body, l.ending)) == before + Seen(l)
  {
    assert before + l.body + l.ending == before + (l.body + l.ending);
  }

  /** After neutralising, no line of the document is a suggestion fence, for every text. */
  lemma NoSuggestionRemains(text: string)
    ensures forall i | 0 <= i < |SplitLines(Neutralized(text))| ::
              !SuggestionFence(Seen(SplitLines(Neutralized(text))[i]))
  {
    NeutralLinesMerge(text);
    var r := NeutralLines(SplitLines(text));
    SplitMerged(r);
    MergeStaysQuiet(r);
  }

  /** Neutralising is idempotent. */
  lemma NeutralizingTwice(text: string)
    ensures Neutralized(Neutralized(text)) == Neutralized(text)
  {
    NoSuggestionRemains(text);
    var lines := SplitLines(Neutralized(text));
    SplitIsWell(Neutralized(text));
    hide SuggestionFence, SplitLines, Seen;
    assert NeutralLines(lines) == lines;
  }

  /** The document keeps its lines exactly when no rewritten fence loses its line ending; then
      the fence state after every single line is what it was. */
  lemma NeutralizingKeepsFences(text: string)
    ensures var before, after := SplitLines(text), SplitLines(Neutralized(text));
            && (|after| == |before| <==> !LosesBreaks(before))
            && (|after| == |before| ==>
                after == NeutralLines(before) &&
                forall open :: States(Bodies(after), open) == States(Bodies(before), open))
  {
    NeutralLinesMerge(text);
    var before := SplitLines(text);
    var r := NeutralLines(before);
    SplitMerged(r);
    MergeCount(r);
    forall open ensures States(Bodies(r), open) == States(Bodies(before), open) {
      NeutralStates(before, open);
    }
  }

  lemma {:induction false} NeutralStates(lines: seq<Line>, open: Option<Fence>)
    requires forall i | 0 <= i < |lines| :: BreakFree(lines[i].body) && IsEnding(lines[i].ending)
    ensures States(Bodies(NeutralLines(lines)), open) == States(Bodies(lines), open)
  {
    hide Transition, NeutralLine, BreakFree, IsEnding;
    if lines != [] {
      var a, b := Bodies(lines), Bodies(NeutralLines(lines));
      NeutralTransition(lines[0], open);
      NeutralStates(lines[1..], Transition(a[0], open).0);
      assert a[1..] == Bodies(lines[1..]);
      assert b[1..] == Bodies(NeutralLines(lines[1..]));
    }
  }

  lemma LiteralFence(line: string, suffix: string)
    requires line == "```" + suffix && '\n' !in suffix && (suffix != "" ==> suffix[0] != '`')
    ensures MatchFence(line) == Some(FenceLine(0, Fence('`', 3), suffix))
  {
    assert Repeat(' ', 0) == "" && Repeat('`', 3) == "```";
    assert line == Repeat(' ', 0) + Repeat('`', 3) + suffix;
    FenceIsMatched(line, FenceLine(0, Fence('`', 3), suffix));
  }

  /** A suggestion fence that ends with a vertical tab, followed by a lone backtick. */
  const TAB_FENCE := Line("```suggestion", "\U{0B}")
  const BACKTICK := Line("`", "\n")

  lemma SeenTab()
    ensures Seen(TAB_FENCE) == "```" + "suggestion\U{0B}"
  {
  }

  lemma TabFenceMatches()
    ensures MatchFence(TAB_FENCE.body) == Some(FenceLine(0, Fence('`', 3), "suggestion"))
    ensures MatchFence(Seen(TAB_FENCE)) == Some(FenceLine(0, Fence('`', 3), "suggestion\U{0B}"))
  {
    hide Seen, MatchFence;
    assert TAB_FENCE.body == "```" + "suggestion";
    LiteralFence(TAB_FENCE.body, "suggestion");
    SeenTab();
    LiteralFence(Seen(TAB_FENCE), "suggestion\U{0B}");
  }

  lemma TabFenceIsSuggestion()
    ensures StartsSuggestion("suggestion\U{0B}") && '`' !in "suggestion\U{0B}"
  {
    var s := "suggestion\U{0B}";
    assert !IsSpace(s[0]);
    assert StripLeft(s) == s;
  }

  lemma BacktickIsNoFence()
    ensures MatchFence("`") == None
  {
    assert RunLength("`", ' ') == 0;
    assert "`"[0..] == "`";
  }

  /** The condition matters: a rewritten fence that loses its line ending swallows the next
      line, and when that line holds a backtick the fence is no fence any more. */
  lemma LostBreakMovesFence(fence: Line, next: Line)
    requires WellSplit([fence, next]) && SuggestionFence(Seen(fence)) && !IsNewline(fence.ending)
    requires '`' in next.body && !SuggestionFence(Seen(next))
    requires Transition(next.body, Transition(fence.body, None).0).0.Some?
    ensures var text := JoinLines([fence, next]);
            && LosesBreaks(SplitLines(text))
            && FinalState(Splitlines(text), None).Some?
            && FinalState(Splitlines(Neutralized(text)), None) == None
  {
    var lines := [fence, next];
    SplitJoin(lines);
    assert SuggestionFence(Seen(lines[0]));
    assert LosesBreaks(lines);
    LostBreakBefore(fence, next);
    LostBreakAfter(fence, next);
  }

  lemma LostBreakBefore(fence: Line, next: Line)
    ensures FinalState(Bodies([fence, next]), None) == Transition(next.body, Transition(fence.body, None).0).0
  {
    hide Transition;
    var bodies, open := Bodies([fence, next]), Transition(fence.body, None).0;
    assert bodies[1..] == [next.body] && [next.body][1..] == [];
    assert FinalState([next.body], open) == FinalState([], Transition(next.body, open).0);
  }

  lemma NeutralPair(fence: Line, next: Line) returns (m: FenceLine)
    requires WellSplit([fence, next]) && SuggestionFence(Seen(fence)) && !IsNewline(fence.ending)
    requires !SuggestionFence(Seen(next))
    ensures m.indent <= 3 && m.fence.size >= 3 && m.fence.marker == '`' && '\n' !in next.body
    ensures NeutralLines([fence, next]) == [Line(TextFence(m), ""), next]
    ensures Mergeable([Line(TextFence(m), ""), next])
  {
    hide BreakFree, IsEnding, IsBreak, MatchFence, TextFence, SuggestionFence, Seen, IsNewline;
    var pair := [fence, next];
    assert pair[0] == fence && pair[1] == next;
    NeutralLineFacts(fence);
    var s;
    m, s := SuggestionBody(fence);
    BodyHasNoNewline(next);
  }

  lemma LostBreakAfter(fence: Line, next: Line)
    requires WellSplit([fence, next]) && SuggestionFence(Seen(fence)) && !IsNewline(fence.ending)
    requires '`' in next.body && !SuggestionFence(Seen(next))
    ensures FinalState(Bodies(SplitLines(JoinLines(NeutralLines([fence, next])))), None) == None
  {
    hide *;
    var m := NeutralPair(fence, next);
    SwallowedLine(m, next.body);
    TwoLinesMerge(Line(TextFence(m), ""), next);
  }

  lemma TwoLinesMerge(a: Line, b: Line)
    requires Mergeable([a, b]) && a.ending == ""
    ensures FinalState(Bodies(SplitLines(JoinLines([a, b]))), None) == Transition(a.body + b.body, None).0
  {
    var merged := Line(a.body + b.body, b.ending);
    SplitMerged([a, b]);
    hide Transition, SplitLines, JoinLines, Mergeable;
    assert [a, b][1..] == [b];
    assert Merge([a, b]) == [merged];
    assert Bodies([merged]) == [merged.body] && [merged.body][1..] == [];
  }

  lemma SwallowedLine(m: FenceLine, body: string)
    requires m.indent <= 3 && m.fence.size >= 3 && m.fence.marker == '`' && '`' in body && '\n' !in body
    ensures Transition(TextFence(m) + body, None) == (None, false)
  {
    hide MatchFence, TextFence, SuggestionFence;
    TextFenceIsQuiet(m, body);
    var i :| 0 <= i < |body| && body[i] == '`';
    assert ("text" + body)[4 + i] == '`';
  }

  /** Such documents exist: a suggestion fence that ends with a vertical tab, then a backtick. */
  lemma TabDocument()
    ensures var text := JoinLines([TAB_FENCE, BACKTICK]);
            && FinalState(Splitlines(text), None).Some?
            && FinalState(Splitlines(Neutralized(text)), None) == None
  {
    TabFenceMatches();
    TabFenceIsSuggestion();
    BacktickIsNoFence();
    hide MatchFence, StartsSuggestion;
    assert forall i | 0 <= i < 10 :: "suggestion"[i] == "suggestion\U{0B}"[i];
    LostBreakMovesFence(TAB_FENCE, BACKTICK);
  }

  // Quick actions.

  predicate SlashFirst(s: string) {
    StartsWith(StripLeft(s), "/")
  }

  /** A backslash goes between the leading whitespace and the slash. */
  function QuietLine(l: Line): Line {
    if SlashFirst(l.body) then
      var stripped := StripLeft(l.body);
      Line(l.body[..|l.body| - |stripped|] + "\\" + stripped, l.ending)
    else l
  }

  function QuietLines(lines: seq<Line>): (r: seq<Line>)
    ensures |r| == |lines|
  {
    seq(|lines|, i requires 0 <= i < |lines| => QuietLine(lines[i]))
  }

  function Quiet(text: string): string {
    JoinLines(QuietLines(SplitLines(text)))
  }

  lemma {:induction false} StripLeftShape(s: string)
    ensures s == s[..|s| - |StripLeft(s)|] + StripLeft(s)
    ensures Blank(s[..|s| - |StripLeft(s)|])
    ensures StripLeft(s) != "" ==> !IsSpace(StripLeft(s)[0])
  {
    hide IsSpace, StripLeft, Blank;
    StripLeftStep(s);
    if s != "" && IsSpace(s[0]) {
      var rest, stripped := s[1..], StripLeft(s);
      StripLeftShape(rest);
      var blank := rest[..|rest| - |stripped|];
      assert s[..|s| - |stripped|] == [s[0]] + blank;
      assert s == [s[0]] + rest;
      BlankGrows(s[0], blank);
    } else {
      assert s[..0] == "";
    }
  }

  lemma StripLeftStep(s: string)
    ensures StripLeft(s) == if s != "" && IsSpace(s[0]) then StripLeft(s[1..]) else s
    ensures Blank("")
  {
  }

  lemma BlankGrows(c: char, s: string)
    requires IsSpace(c) && Blank(s)
    ensures Blank([c] + s)
  {
  }

  /** The first visible character of a fence is its marker. */
  lemma FenceStarts(line: string)
    requires MatchFence(line).Some?
    ensures StripLeft(line) != "" && (StripLeft(line)[0] == '`' || StripLeft(line)[0] == '~')
  {
    var k := RunLength(line, ' ');
    assert !IsSpace(line[k]) && IsSpace(' ');
    hide IsSpace;
    assert line == line[..k] + line[k..];
    assert forall i | 0 <= i < k :: line[..k][i] == ' ';
    StripKeepsNonBlank(line[..k], line[k..]);
    assert StripLeft(line[k..]) == line[k..];
  }

  /** Fences never start with a slash, so skipping them changes nothing. */
  lemma FenceHasNoSlash(line: string, open: Option<Fence>)
    requires Transition(line, open).1
    ensures !SlashFirst(line)
  {
    FenceStarts(line);
  }

  /** Looking for the slash in the line as seen is looking for it in the text of the line. */
  lemma SlashAsSeen(l: Line)
    requires BreakFree(l.body) && IsEnding(l.ending)
    ensures SlashFirst(Seen(l)) <==> SlashFirst(l.body)
    ensures SlashFirst(l.body) ==>
      (Seen(l)[..|Seen(l)| - |StripLeft(Seen(l))|] + "\\" + StripLeft(Seen(l)) + Unseen(l) == QuietLine(l).Text())
  {
    hide IsSpace, IsBreak, BreakFree, IsEnding, StripLeft;
    var stripped, tail := StripLeft(l.body), if IsNewline(l.ending) then "" else l.ending;
    StripLeftShape(l.body);
    var lead := l.body[..|l.body| - |stripped|];
    if stripped != "" {
      assert l.body + tail == lead + (stripped + tail);
      StripKeepsNonBlank(lead, stripped + tail);
      StripLeftStep(stripped + tail);
      assert Seen(l)[..|lead|] == lead;
      assert tail + Unseen(l) == l.ending;
    } else {
      StripKeepsNonBlank(l.body, tail);
      SeenEndingIsBlank(l);
    }
  }

  lemma SeenEndingIsBlank(l: Line)
    requires IsEnding(l.ending)
    ensures StripLeft(if IsNewline(l.ending) then "" else l.ending) == ""
  {
    var tail := if IsNewline(l.ending) then "" else l.ending;
    if tail != "" {
      EndingIsSpace(l.ending);
      assert tail[1..] == "";
    }
  }

  method NeutralizeQuickActions(text: string) returns (r: string)
    ensures r == Quiet(text)
  {
    hide Transition, SplitLines, JoinLines, Seen, Unseen, QuietLine, IsSpace, BreakFree, IsEnding;
    SplitIsWell(text);
    var lines := SplitLines(text);
    ghost var all := QuietLines(lines);
    var open: Option<Fence> := None;
    r := "";
    JoinNone();
    for i := 0 to |lines|
      invariant r == JoinLines(all[..i])
    {
      var line := Seen(lines[i]);
      var (next, isFence) := Transition(line, open);
      JoinNext(all, i);
      SlashAsSeen(lines[i]);
      QuietLineText(lines[i]);
      if isFence {
        FenceHasNoSlash(line, open);
        open := next;
        r := r + (line + Unseen(lines[i]));
      } else {
        var stripped := StripLeft(line);
        if StartsWith(stripped, "/") {
          r := r + (line[..|line| - |stripped|] + "\\" + stripped + Unseen(lines[i]));
        } else {
          r := r + (line + Unseen(lines[i]));
        }
      }
    }
    assert all[..|lines|] == all;
  }

  lemma QuietLineText(l: Line)
    ensures !SlashFirst(l.body) ==> QuietLine(l).Text() == Seen(l) + Unseen(l)
  {
  }

  lemma QuietLineFacts(l: Line, open: Option<Fence>)
    requires BreakFree(l.body) && IsEnding(l.ending) && l.Text() != ""
    ensures var r := QuietLine(l);
            && BreakFree(r.body) && r.ending == l.ending && r.Text() != ""
            && (r.Text()[0] == '\n' ==> r == l)
            && !SlashFirst(r.body)
            && Transition(r.body, open) == Transition(l.body, open)
  {
    hide MatchFence, BreakFree, IsEnding, IsSpace;
    if SlashFirst(l.body) {
      QuietBody(l.body);
      var r := QuietLine(l);
      assert StripLeft(r.body)[0] == '\\' && StripLeft(l.body)[0] == '/';
      if MatchFence(l.body).Some? { FenceStarts(l.body); }
      if MatchFence(r.body).Some? { FenceStarts(r.body); }
    }
  }

  lemma QuietBody(body: string)
    requires BreakFree(body) && SlashFirst(body)
    ensures var stripped := StripLeft(body);
            var r := body[..|body| - |stripped|] + "\\" + stripped;
            BreakFree(r) && StripLeft(r) == "\\" + stripped && r[0] != '\n'
  {
    StripLeftShape(body);
    CarriageReturnBreaks();
    assert !IsSpace('\\') && !IsBreak('\\');
    hide IsSpace, IsBreak;
    var stripped := StripLeft(body);
    var lead := body[..|body| - |stripped|];
    var r := lead + "\\" + stripped;
    assert r == lead + ("\\" + stripped);
    StripKeepsNonBlank(lead, "\\" + stripped);
    forall i | 0 <= i < |r| ensures !IsBreak(r[i]) {
      if i < |lead| { assert r[i] == body[i]; } else if i > |lead| { assert r[i] == body[i - 1]; }
    }
  }

  lemma QuietLinesWell(text: string)
    ensures WellSplit(SplitLines(text)) && WellSplit(QuietLines(SplitLines(text)))
    ensures forall i | 0 <= i < |SplitLines(text)| ::
              var r := QuietLines(SplitLines(text))[i];
              !SlashFirst(r.body) && r.ending == SplitLines(text)[i].ending
  {
    hide BreakFree, IsEnding, QuietLine, SlashFirst, SplitLines, Transition;
    SplitIsWell(text);
    var lines := SplitLines(text);
    var r := QuietLines(lines);
    forall i | 0 <= i < |r|
      ensures BreakFree(r[i].body) && r[i].ending == lines[i].ending && r[i].Text() != ""
      ensures r[i].Text()[0] == '\n' ==> r[i] == lines[i]
      ensures !SlashFirst(r[i].body)
    {
      QuietLineFacts(lines[i], None);
    }
  }

  lemma {:induction false} QuietStates(lines: seq<Line>, open: Option<Fence>)
    requires forall i | 0 <= i < |lines| ::
             BreakFree(lines[i].body) && IsEnding(lines[i].ending) && lines[i].Text() != ""
    ensures States(Bodies(QuietLines(lines)), open) == States(Bodies(lines), open)
  {
    hide Transition, QuietLine, BreakFree, IsEnding, SlashFirst;
    if lines != [] {
      var a, b := Bodies(lines), Bodies(QuietLines(lines));
      QuietLineFacts(lines[0], open);
      QuietStates(lines[1..], Transition(a[0], open).0);
      assert a[1..] == Bodies(lines[1..]);
      assert b[1..] == Bodies(QuietLines(lines[1..]));
    }
  }

  /** For every text: the document keeps its lines and the fence state after each of them, and
      no line starts with a slash any more. */
  lemma QuietingKeepsFences(text: string)
    ensures var before, after := SplitLines(text), SplitLines(Quiet(text));
            && |after| == |before|
            && (forall open :: States(Bodies(after), open) == States(Bodies(before), open))
            && (forall i | 0 <= i < |after| :: !SlashFirst(after[i].body) && after[i].ending == before[i].ending)
  {
    hide SplitLines, JoinLines, SlashFirst, States;
    QuietLinesWell(text);
    var before := SplitLines(text);
    SplitJoin(QuietLines(before));
    forall open ensures States(Bodies(QuietLines(before)), open) == States(Bodies(before), open) {
      QuietStates(before, open);
    }
  }

  /** Quieting is idempotent. */
  lemma QuietingTwice(text: string)
    ensures Quiet(Quiet(text)) == Quiet(text)
  {
    hide SplitLines, JoinLines, SlashFirst, States;
    QuietingKeepsFences(text);
    var lines := SplitLines(Quiet(text));
    SplitIsWell(Quiet(text));
    assert QuietLines(lines) == lines;
  }
}
