/** Lines and fences: Python's `splitlines` and the fenced-code state machine over it. */
module MarkdownLines {

  // Lines.

  /** The characters at which `str.splitlines` ends a line. */
  predicate IsBreak(c: char) {
    || '\n' <= c <= '\r' || '\U{1C}' <= c <= '\U{1E}'
    || c == '\U{85}' || c == '\U{2028}' || c == '\U{2029}'
  }

  /** The ten characters that end a line, by code point. */
  lemma BreaksAre(c: char)
    ensures IsBreak(c) <==> c as int in {10, 11, 12, 13, 28, 29, 30, 133, 8232, 8233}
  {
  }

  predicate BreakFree(s: string) {
    forall i | 0 <= i < |s| :: !IsBreak(s[i])
  }

  /** One line: its text, and the line ending that `keepends` would keep. */
  datatype Line = Line(body: string, ending: string)
  {
    function Text(): string { body + ending }
  }

  /** How far the first line's text reaches. */
  function BodyLength(s: string): (n: nat)
    ensures n <= |s| && BreakFree(s[..n])
    ensures n < |s| ==> IsBreak(s[n])
  {
    if s == "" || IsBreak(s[0]) then 0 else 1 + BodyLength(s[1..])
  }

  /** The length of the line ending at the front of `s`, if there is one. */
  function EndingLength(s: string): (n: nat)
    ensures n <= |s|
  {
    if s == "" || !IsBreak(s[0]) then 0
    else if s[0] == '\r' && |s| > 1 && s[1] == '\n' then 2
    else 1
  }

  function FirstLine(s: string): (line: Line)
    ensures line.Text() <= s
  {
    var n := BodyLength(s);
    Line(s[..n], s[n..][..EndingLength(s[n..])])
  }

  /** `s.splitlines(keepends=True)`, each line split into text and ending. */
  function SplitLines(s: string): (lines: seq<Line>)
    ensures s == "" <==> lines == []
  {
    if s == "" then []
    else
      var line := FirstLine(s);
      [line] + SplitLines(s[|line.Text()|..])
  }

  function JoinLines(lines: seq<Line>): string {
    if lines == [] then "" else lines[0].Text() + JoinLines(lines[1..])
  }

  /** A possible result of the split: each text is free of breaks, only the last line may lack
      an ending, and a carriage return is never separated from its line feed. */
  predicate WellSplit(lines: seq<Line>) {
    && (forall i | 0 <= i < |lines| :: BreakFree(lines[i].body) && IsEnding(lines[i].ending) && lines[i].Text() != "")
    && (forall i | 0 <= i < |lines| - 1 :: lines[i].ending != "")
    && (forall i | 0 <= i < |lines| - 1 :: lines[i].ending == "\r" ==> lines[i + 1].Text()[0] != '\n')
  }

  predicate IsEnding(e: string) {
    e == "" || e == "\r\n" || (|e| == 1 && IsBreak(e[0]))
  }

  lemma FirstLineIsLine(s: string)
    requires s != ""
    ensures var line := FirstLine(s);
            && BreakFree(line.body) && IsEnding(line.ending) && line.Text() != ""
            && (line.ending == "" ==> line.Text() == s)
            && (line.ending == "\r" && |line.Text()| < |s| ==> s[|line.Text()|] != '\n')
            && s == line.Text() + s[|line.Text()|..]
  {
    hide IsBreak, BodyLength, EndingLength;
    var n := BodyLength(s);
    var tail := s[n..];
    assert s == s[..n] + tail;
    BodyEnds(s);
    EndingAt(tail);
    assert tail == tail[..EndingLength(tail)] + tail[EndingLength(tail)..];
    assert n < |s| ==> tail[0] == s[n];
  }

  lemma BodyEnds(s: string)
    ensures var n := BodyLength(s);
            n <= |s| && BreakFree(s[..n]) && (n < |s| ==> IsBreak(s[n]))
  {
  }

  /** What stands at the front of a text that starts with a break, and what does not follow it. */
  lemma EndingAt(tail: string)
    requires tail != "" ==> IsBreak(tail[0])
    ensures var n := EndingLength(tail);
            && n <= |tail| && IsEnding(tail[..n]) && (tail != "" ==> n > 0)
            && (tail[..n] == "\r" && n < |tail| ==> tail[n] != '\n')
  {
    hide IsBreak;
    if tail != "" {
      if EndingLength(tail) == 2 {
        assert tail[..2] == "\r\n";
      } else {
        assert tail[..1] == [tail[0]];
      }
    }
  }

  lemma {:induction false} SplitIsWell(s: string)
    ensures JoinLines(SplitLines(s)) == s
    ensures WellSplit(SplitLines(s))
  {
    hide IsBreak, FirstLine, BreakFree, IsEnding;
    if s != "" {
      var line := FirstLine(s);
      var rest := s[|line.Text()|..];
      FirstLineIsLine(s);
      SplitIsWell(rest);
      var lines, more := SplitLines(s), SplitLines(rest);
      assert lines == [line] + more;
      assert JoinLines(lines) == line.Text() + JoinLines(more);
      if rest != "" {
        assert rest == more[0].Text() + JoinLines(more[1..]);
        assert rest[0] == more[0].Text()[0];
      }
    }
  }

  lemma EndingLengthIs(ending: string, rest: string)
    requires IsEnding(ending)
    requires ending != "" || rest == ""
    requires ending == "\r" && rest != "" ==> rest[0] != '\n'
    ensures EndingLength(ending + rest) == |ending|
  {
    hide IsBreak;
    var s := ending + rest;
    if ending == "\r\n" {
      assert s[0] == '\r' && s[1] == '\n';
      assert IsBreak('\r') by { CarriageReturnBreaks(); }
    } else if ending != "" {
      assert s[0] == ending[0];
      if |s| > 1 { assert s[1] == rest[0]; }
      if ending[0] == '\r' { assert ending == "\r"; }
    }
  }

  lemma CarriageReturnBreaks()
    ensures IsBreak('\r') && IsBreak('\n')
  {
  }

  /** Splitting a text that starts with a whole line. */
  lemma SplitFirst(line: Line, rest: string)
    requires BreakFree(line.body) && IsEnding(line.ending) && line.Text() != ""
    requires line.ending != "" || rest == ""
    requires line.ending == "\r" && rest != "" ==> rest[0] != '\n'
    ensures SplitLines(line.Text() + rest) == [line] + SplitLines(rest)
  {
    hide IsBreak, BreakFree, IsEnding, FirstLine;
    FirstLineOf(line, rest);
    assert (line.Text() + rest)[|line.Text()|..] == rest;
  }

  lemma FirstLineOf(line: Line, rest: string)
    requires BreakFree(line.body) && IsEnding(line.ending)
    requires line.ending != "" || rest == ""
    requires line.ending == "\r" && rest != "" ==> rest[0] != '\n'
    ensures FirstLine(line.Text() + rest) == line
  {
    hide IsBreak, BreakFree, IsEnding, BodyLength, EndingLength;
    var s, n := line.Text() + rest, |line.body|;
    assert s[..n] == line.body;
    assert s[n..] == line.ending + rest;
    if line.ending != "" {
      EndingBreaks(line.ending);
      assert s[n] == line.ending[0];
    }
    BodyLengthIs(s, n);
    EndingLengthIs(line.ending, rest);
    assert (line.ending + rest)[..|line.ending|] == line.ending;
  }

  lemma EndingBreaks(ending: string)
    requires IsEnding(ending) && ending != ""
    ensures IsBreak(ending[0])
  {
  }

  lemma {:induction false} BodyLengthIs(s: string, n: nat)
    requires n <= |s| && BreakFree(s[..n]) && (n < |s| ==> IsBreak(s[n]))
    ensures BodyLength(s) == n
  {
    if n > 0 {
      assert s[..n][0] == s[0];
      assert s[1..][..n - 1] == s[..n][1..];
      BodyLengthIs(s[1..], n - 1);
    }
  }

  /** Splitting undoes joining. */
  lemma {:induction false} SplitJoin(lines: seq<Line>)
    requires WellSplit(lines)
    ensures SplitLines(JoinLines(lines)) == lines
  {
    if lines != [] {
      var rest := lines[1..];
      SplitJoin(rest);
      if rest != [] {
        assert JoinLines(rest)[0] == rest[0].Text()[0];
        assert lines[1] == rest[0];
      }
      SplitFirst(lines[0], JoinLines(rest));
    }
  }

  lemma {:induction false} JoinAppend(a: seq<Line>, b: seq<Line>)
    ensures JoinLines(a + b) == JoinLines(a) + JoinLines(b)
  {
    if a == [] {
      assert a + b == b;
    } else {
      assert (a + b)[1..] == a[1..] + b;
      JoinAppend(a[1..], b);
    }
  }

  lemma LastOfJoin(lines: seq<Line>)
    requires lines != [] && lines[|lines| - 1].Text() != ""
    ensures var s, last := JoinLines(lines), lines[|lines| - 1].Text();
            s != "" && s[|s| - 1] == last[|last| - 1]
  {
    var n := |lines| - 1;
    assert lines == lines[..n] + [lines[n]];
    JoinAppend(lines[..n], [lines[n]]);
    assert JoinLines([lines[n]]) == lines[n].Text() + JoinLines([]) == lines[n].Text();
  }

  lemma ClosedByNewline(line: Line)
    requires BreakFree(line.body) && line.Text() != "" && line.Text()[|line.Text()| - 1] == '\n'
    ensures line.ending != "" && line.ending != "\r"
  {
    CarriageReturnBreaks();
  }

  /** A text that ends with a line feed ends with a closed line. */
  lemma LastLineClosed(s: string)
    requires s != "" && s[|s| - 1] == '\n'
    ensures var lines := SplitLines(s);
            var last := lines[|lines| - 1];
            last.ending != "" && last.ending != "\r"
  {
    SplitIsWell(s);
    var lines := SplitLines(s);
    hide SplitLines, JoinLines, BreakFree, IsEnding;
    LastOfJoin(lines);
    ClosedByNewline(lines[|lines| - 1]);
  }

  /** A line feed separates the lines before it from the lines after it. */
  lemma SplitAfterNewline(s: string, tail: string)
    requires s != "" && s[|s| - 1] == '\n'
    ensures SplitLines(s + tail) == SplitLines(s) + SplitLines(tail)
  {
    var a, b := SplitLines(s), SplitLines(tail);
    SplitIsWell(s);
    SplitIsWell(tail);
    LastLineClosed(s);
    JoinAppend(a, b);
    WellSplitAppend(a, b);
    hide SplitLines, JoinLines, WellSplit;
    SplitJoin(a + b);
  }

  lemma WellSplitAppend(a: seq<Line>, b: seq<Line>)
    requires WellSplit(a) && WellSplit(b) && a != []
    requires a[|a| - 1].ending != "" && a[|a| - 1].ending != "\r"
    ensures WellSplit(a + b)
  {
    hide BreakFree, IsEnding;
    var c := a + b;
    forall i | 0 <= i < |c| ensures BreakFree(c[i].body) && IsEnding(c[i].ending) && c[i].Text() != "" {
      if i >= |a| { assert c[i] == b[i - |a|]; }
    }
    forall i | 0 <= i < |c| - 1
      ensures c[i].ending != ""
      ensures c[i].ending == "\r" ==> c[i + 1].Text()[0] != '\n'
    {
      if i >= |a| {
        assert c[i] == b[i - |a|] && c[i + 1] == b[i + 1 - |a|];
      } else if i < |a| - 1 {
        assert c[i] == a[i] && c[i + 1] == a[i + 1];
      }
    }
  }

  /** A first line, whole lines after it, and a last line without an ending. */
  lemma SplitFramed(first: Line, inner: string, last: string)
    requires BreakFree(first.body) && first.ending == "\n"
    requires inner != "" && inner[|inner| - 1] == '\n'
    requires BreakFree(last) && last != ""
    ensures SplitLines(first.Text() + (inner + last)) == [first] + SplitLines(inner) + [Line(last, "")]
  {
    CarriageReturnBreaks();
    hide SplitLines, IsBreak, BreakFree;
    SplitFirst(first, inner + last);
    SplitAfterNewline(inner, last);
    SplitFirst(Line(last, ""), "");
    assert Line(last, "").Text() + "" == last;
  }
}
