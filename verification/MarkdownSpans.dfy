/** Code spans: what `inline_code` writes, read back by section 6.1 of CommonMark 0.31.2. */
module MarkdownSpans {
  import opened PyText
  import opened Json
  import opened Collections
  import opened MarkdownFences
  import opened MarkdownBlocks

  // The writer.

  /** `bool(value.strip()) and value.startswith(" ") and value.endswith(" ")` */
  predicate PaddedSpan(value: string) {
    !Blank(value) && StartsWith(value, " ") && EndsWith(value, " ")
  }

  /** The span for text that is already escaped. */
  function Span(value: string): string {
    if '`' !in value && !PaddedSpan(value) then "`" + value + "`"
    else
      var fence := Repeat('`', MaxBacktickRun(value) + 1);
      fence + " " + value + " " + fence
  }

  function InlineCode(value: string, escape: bool, category: Classifier): string {
    if value == "" then "_(unset)_"
    else Span(if escape then EscapeControls(value, category) else value)
  }

  // The reader.

  /** The offset of the first backtick string of exactly `n` backticks. */
  function FindClose(s: string, n: nat): Option<nat>
    decreases |s|
  {
    if s == "" then None
    else
      var run := RunLength(s, '`');
      if run == n && n > 0 then Some(0)
      else
        var skip := if run == 0 then 1 else run;
        match FindClose(s[skip..], n)
        case None => None
        case Some(k) => Some(skip + k)
  }

  predicate AllSpaces(s: string) {
    forall i | 0 <= i < |s| :: s[i] == ' '
  }

  /** Every line ending becomes one space: a line feed, a carriage return, or both together. */
  function ToSpaces(s: string): string {
    if s == "" then ""
    else if s[0] == '\r' && |s| > 1 && s[1] == '\n' then " " + ToSpaces(s[2..])
    else if s[0] == '\r' || s[0] == '\n' then " " + ToSpaces(s[1..])
    else [s[0]] + ToSpaces(s[1..])
  }

  predicate Strippable(s: string) { StartsWith(s, " ") && EndsWith(s, " ") && !AllSpaces(s) }

  /** One space is dropped at either end, unless the span is all spaces. */
  function StripPadding(s: string): string {
    if Strippable(s) then s[1..|s| - 1] else s
  }

  predicate OneLine(s: string) {
    '\n' !in s && '\r' !in s
  }

  /** Reads inline text that consists of exactly one code span. */
  function ReadSpan(text: string): Option<string> {
    var n := RunLength(text, '`');
    if n == 0 then None
    else match FindClose(text[n..], n)
      case None => None
      case Some(k) =>
        if n + k + n == |text| then Some(StripPadding(ToSpaces(text[n..][..k]))) else None
  }

  // Reading undoes writing.

  lemma SuffixRuns(s: string, from: nat, n: nat)
    requires from <= |s| && !HasRun(s, n)
    ensures !HasRun(s[from..], n)
  {
    forall i: nat ensures RunAt(s[from..], i, n) ==> RunAt(s, from + i, n) {
      assert i + n <= |s| - from ==> forall j | from + i <= j < from + i + n :: s[j] == s[from..][j - from];
    }
  }

  /** The closing fence is found right after content whose runs are shorter. */
  lemma {:induction false} ClosesAfter(content: string, n: nat)
    requires n > 0 && !HasRun(content, n)
    requires content != "" ==> content[|content| - 1] != '`'
    ensures FindClose(content + Repeat('`', n), n) == Some(|content|)
    decreases |content|
  {
    var s := content + Repeat('`', n);
    if content == "" {
      assert s == Repeat('`', n);
      RunLengthIs(s, '`', n);
    } else {
      var run := RunLength(content, '`');
      assert run < |content| && s[run] == content[run];
      RunLengthIs(s, '`', run);
      assert RunAt(content, 0, run);
      if run >= n { assert RunAt(content, 0, n); }
      var skip := if run == 0 then 1 else run;
      assert s[skip..] == content[skip..] + Repeat('`', n);
      SuffixRuns(content, skip, n);
      ClosesAfter(content[skip..], n);
    }
  }

  /** A span with an `n`-backtick fence around suitable content reads back as that content. */
  lemma ReadsFenced(content: string, n: nat)
    requires n > 0 && !HasRun(content, n) && content != ""
    requires content[0] != '`' && content[|content| - 1] != '`'
    ensures ReadSpan(Repeat('`', n) + content + Repeat('`', n)) == Some(StripPadding(ToSpaces(content)))
  {
    var fence := Repeat('`', n);
    var text := fence + content + fence;
    assert text[n] == content[0];
    RunLengthIs(text, '`', n);
    assert text[n..] == content + fence;
    ClosesAfter(content, n);
    assert text[n..][..|content|] == content;
  }

  /** A span that renders other text than it was given: all whitespace, between two spaces,
      with some whitespace other than U+0020. */
  predicate ExoticBlank(value: string) {
    Blank(value) && StartsWith(value, " ") && EndsWith(value, " ") && !AllSpaces(value)
  }

  lemma NoBacktickNoRun(value: string)
    requires '`' !in value
    ensures !HasRun(value, 1)
  {
    forall i ensures !RunAt(value, i, 1) {
      if 0 <= i < |value| { assert value[i] != '`'; }
    }
  }

  lemma PaddedRuns(value: string, n: nat)
    requires n > 0 && HasRun(" " + value + " ", n)
    ensures HasRun(value, n)
  {
    var s := " " + value + " ";
    var i :| RunAt(s, i, n);
    assert s[i] == '`' && s[i + n - 1] == '`';
    assert s[0] == ' ' && s[|s| - 1] == ' ';
    assert 0 < i && i + n < |s|;
    forall j | i - 1 <= j < i - 1 + n ensures value[j] == '`' {
      assert s[j + 1] == value[j];
    }
    assert RunAt(value, i - 1, n);
  }

  lemma BareSpan(value: string)
    requires value != "" && '`' !in value && !PaddedSpan(value)
    ensures ReadSpan(Span(value)) == Some(StripPadding(ToSpaces(value)))
  {
    NoBacktickNoRun(value);
    assert Repeat('`', 1) == "`";
    ReadsFenced(value, 1);
  }

  lemma {:induction false} SpacesAppend(s: string)
    ensures ToSpaces(s + " ") == ToSpaces(s) + " "
  {
    var t := s + " ";
    if s == "" {
      assert t == " " && t[1..] == "" && ToSpaces(t[1..]) == "";
    } else if s[0] == '\r' && |s| > 1 && s[1] == '\n' {
      SpacesAppend(s[2..]);
      assert t[2..] == s[2..] + " ";
    } else {
      SpacesAppend(s[1..]);
      assert t[1..] == s[1..] + " ";
    }
  }

  /** Text that is not a line ending stays, in place of nothing else. */
  lemma {:induction false} VisibleStays(s: string, i: nat)
    requires i < |s| && s[i] != '\r' && s[i] != '\n'
    ensures s[i] in ToSpaces(s)
  {
    if i > 0 {
      if s[0] == '\r' && s[1] == '\n' { VisibleStays(s[2..], i - 2); } else { VisibleStays(s[1..], i - 1); }
    }
  }

  lemma {:induction false} SpacesOnOneLine(s: string)
    ensures OneLine(ToSpaces(s)) && (OneLine(s) ==> ToSpaces(s) == s)
  {
    if s != "" {
      if s[0] == '\r' && |s| > 1 && s[1] == '\n' {
        SpacesOnOneLine(s[2..]);
        assert s[0] in s;
      } else {
        SpacesOnOneLine(s[1..]);
        assert s[0] in s;
      }
    }
  }

  lemma StripsPadding(value: string)
    requires '`' in value || !Blank(value)
    ensures StripPadding(ToSpaces(" " + value + " ")) == ToSpaces(value)
  {
    hide ToSpaces, AllSpaces, Strippable;
    SpacesBetween(value);
    NotAllSpaces(value);
    StripsOnce(ToSpaces(value));
  }

  lemma SpacesBetween(value: string)
    ensures ToSpaces(" " + value + " ") == " " + ToSpaces(value) + " "
  {
    assert (" " + value + " ")[1..] == value + " ";
    SpacesAppend(value);
  }

  lemma StripsOnce(s: string)
    requires !AllSpaces(" " + s + " ")
    ensures StripPadding(" " + s + " ") == s
  {
    hide AllSpaces;
    var padded := " " + s + " ";
    assert padded[1..|padded| - 1] == s;
    assert padded[..1] == " " && padded[|padded| - 1..] == " ";
  }

  lemma FencedSpan(value: string)
    requires '`' in value || PaddedSpan(value)
    ensures ReadSpan(Span(value)) == Some(ToSpaces(value))
  {
    hide ReadSpan, StripPadding, HasRun, Span, PaddedSpan, Repeat, MaxBacktickRun, ToSpaces;
    var n, padded := MaxBacktickRun(value) + 1, " " + value + " ";
    PaddedIsShown(value);
    StripsPadding(value);
    MaxRunExact(value, n);
    if HasRun(padded, n) { PaddedRuns(value, n); }
    SpanText(value);
    ReadsFenced(padded, n);
  }

  lemma PaddedIsShown(value: string)
    ensures PaddedSpan(value) ==> !Blank(value)
  {
  }

  lemma SpanText(value: string)
    requires '`' in value || PaddedSpan(value)
    ensures var fence := Repeat('`', MaxBacktickRun(value) + 1);
            Span(value) == fence + (" " + value + " ") + fence
  {
    hide PaddedSpan, Repeat, MaxBacktickRun;
  }

  /** A non-empty text reads back as itself exactly when it is on one line and no exotic blank.
      In any case it reads as itself with line endings turned to spaces, unless it is written
      without padding and what results can be stripped. */
  lemma SpanRoundTrip(value: string)
    requires value != ""
    ensures ReadSpan(Span(value)) == Some(value) <==> OneLine(value) && !ExoticBlank(value)
    ensures ReadSpan(Span(value)) == Some(ToSpaces(value)) <==>
            '`' in value || PaddedSpan(value) || !Strippable(ToSpaces(value))
  {
    hide ReadSpan, Span;
    SpacesOnOneLine(value);
    if '`' !in value && !PaddedSpan(value) {
      BareSpan(value);
      StrippedIsShorter(ToSpaces(value));
      StrippableAsExotic(value);
    } else {
      FencedSpan(value);
      NotAllSpaces(value);
    }
  }

  lemma StrippedIsShorter(s: string)
    ensures Strippable(s) ==> |s| >= 2 && |StripPadding(s)| < |s|
    ensures OneLine(s) ==> OneLine(StripPadding(s))
  {
    if s == " " { assert AllSpaces(s); }
  }

  lemma StrippableAsExotic(value: string)
    requires '`' !in value && !PaddedSpan(value)
    ensures Strippable(value) <==> ExoticBlank(value)
  {
  }

  lemma NotAllSpaces(value: string)
    requires '`' in value || !Blank(value)
    ensures !AllSpaces(" " + ToSpaces(value) + " ") && !Blank(value)
  {
    assert !IsSpace('`') && IsSpace('\r') && IsSpace('\n') && IsSpace(' ');
    var i :| 0 <= i < |value| && !IsSpace(value[i]);
    VisibleStays(value, i);
    var j :| 0 <= j < |ToSpaces(value)| && ToSpaces(value)[j] == value[i];
    assert (" " + ToSpaces(value) + " ")[1 + j] == value[i] != ' ';
  }

  /** A line ending between two letters reads back as a space. */
  lemma LineEndingBecomesSpace()
    ensures var value := "a\nb";
            ReadSpan(Span(value)) == Some("a b")
  {
    hide ReadSpan, Span;
    var value := "a\nb";
    assert value[0] == 'a' && value[1] == '\n' && value[2] == 'b';
    assert !StartsWith(value, " ") && '`' !in value;
    BareSpan(value);
    var rest := "\nb";
    assert value[1..] == rest && rest[1..] == "b" && "b"[1..] == "";
    assert ToSpaces("") == "";
    assert ToSpaces("b") == "b";
    assert rest[0] == '\n' && ToSpaces(rest) == " b";
    assert ToSpaces(value) == ['a'] + ToSpaces(rest);
    assert "a b"[0] == 'a';
    assert !Strippable("a b");
    assert StripPadding(ToSpaces(value)) == "a b";
  }

  /** In particular every text whose only whitespace is U+0020 reads back as itself. */
  lemma PlainSpacesRoundTrip(value: string)
    requires value != "" && forall i | 0 <= i < |value| :: IsSpace(value[i]) ==> value[i] == ' '
    ensures ReadSpan(Span(value)) == Some(value)
  {
    hide ReadSpan, Span;
    assert IsSpace('\n') && IsSpace('\r');
    SpanRoundTrip(value);
  }

  /** A no-break space between two spaces is read back without the spaces. */
  lemma NoBreakSpaceIsStripped()
    ensures ReadSpan(Span(" \U{A0} ")) == Some("\U{A0}")
  {
    hide *;
    var value := " \U{A0} ";
    NoBreakSpaceFacts();
    BareSpan(value);
    SpacesOnOneLine(value);
  }

  lemma NoBreakSpaceFacts()
    ensures var value := " \U{A0} ";
            && '`' !in value && !PaddedSpan(value) && OneLine(value)
            && StripPadding(value) == "\U{A0}"
  {
    var value := " \U{A0} ";
    assert value[0] == ' ' && value[1] == '\U{A0}' && value[2] == ' ';
    assert Blank(value);
    assert value[..1] == " " && value[2..] == " ";
    assert value[1..2] == "\U{A0}";
    assert !AllSpaces(value);
  }

  // Escaped values are single lines.

  /** The classifier agrees with Unicode on the two line endings of Markdown. */
  predicate KnowsLineEndings(category: Classifier) {
    category('\n') == Control && category('\r') == Control
  }

  lemma {:induction false} HexIsOneLine(n: nat, width: nat)
    ensures OneLine(Hex(n, width)) && Hex(n, width) != ""
    decreases n, width
  {
    if !(n < 16 && width <= 1) {
      HexIsOneLine(n / 16, if width > 0 then width - 1 else 0);
    }
  }

  lemma CategoryIsOneLine(c: char, category: Classifier)
    requires KnowsLineEndings(category)
    ensures OneLine(EscapeCategory(c, category)) && EscapeCategory(c, category) != ""
  {
    hide Hex;
    HexIsOneLine(c as nat, 2);
    HexIsOneLine(c as nat, 4);
    HexIsOneLine(c as nat, 8);
  }

  lemma {:induction false} EscapedIsOneLine(value: string, category: Classifier)
    requires KnowsLineEndings(category)
    ensures OneLine(EscapeControls(value, category))
    ensures value != "" ==> EscapeControls(value, category) != ""
  {
    hide EscapeCategory, KnowsLineEndings;
    if value != "" {
      EscapedIsOneLine(value[1..], category);
      CategoryIsOneLine(value[0], category);
    }
  }

  /** Escaped inline code is one line and reads back as the escaped value, except for exotic
      blanks. */
  lemma InlineCodeRoundTrip(value: string, category: Classifier)
    requires value != "" && KnowsLineEndings(category)
    ensures var escaped := EscapeControls(value, category);
            && OneLine(escaped)
            && (ReadSpan(InlineCode(value, true, category)) == Some(escaped) <==> !ExoticBlank(escaped))
  {
    EscapedIsOneLine(value, category);
    SpanRoundTrip(EscapeControls(value, category));
  }
}
