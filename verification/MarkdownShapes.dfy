/** What the Markdown printers write, character by character and line by line. */
module MarkdownShapes {
  import opened PyText
  import opened Json
  import opened Collections
  import opened MarkdownLines
  import opened MarkdownFences
  import opened MarkdownBlocks
  import opened MarkdownSpans
  import opened MarkdownNeutral

  // Escapes.

  const HEX := "0123456789abcdef"

  /** The number that lower-case hexadecimal digits stand for. */
  function ReadHex(s: string): nat
    requires forall i | 0 <= i < |s| :: s[i] in HEX
  {
    if s == "" then 0
    else
      var d := s[|s| - 1];
      16 * ReadHex(s[..|s| - 1]) + if '0' <= d <= '9' then d as int - '0' as int else d as int - 'a' as int + 10
  }

  /** A code point in hexadecimal, with leading zeros up to a width that holds it. */
  ghost predicate CodeOf(digits: string, code: int, width: nat) {
    |digits| == width && (forall i | 0 <= i < |digits| :: digits[i] in HEX) && ReadHex(digits) == code
  }

  function PowerOf16(k: nat): nat { if k == 0 then 1 else 16 * PowerOf16(k - 1) }

  lemma {:induction false} HexReads(n: nat, width: nat)
    requires width > 0 && n < PowerOf16(width)
    ensures CodeOf(Hex(n, width), n, width)
  {
    hide HexDigit, ReadHex, Hex, PowerOf16;
    HexStep(n, width);
    PowerStep(width);
    DigitReads(n % 16);
    if width == 1 {
      DigitCodes("", 0, n, 0);
      assert "" + [HexDigit(n)] == [HexDigit(n)];
    } else {
      HexReads(n / 16, width - 1);
      DigitCodes(Hex(n / 16, width - 1), n / 16, n % 16, width - 1);
    }
  }

  lemma HexStep(n: nat, width: nat)
    requires width > 0
    ensures width == 1 && n < 16 ==> Hex(n, width) == [HexDigit(n)]
    ensures width > 1 ==> Hex(n, width) == Hex(n / 16, width - 1) + [HexDigit(n % 16)]
  {
    hide HexDigit;
  }

  lemma PowerStep(width: nat)
    requires width > 0
    ensures width == 1 ==> PowerOf16(width) == 16
    ensures PowerOf16(width) == 16 * PowerOf16(width - 1)
  {
    assert PowerOf16(0) == 1;
  }

  /** One more digit. */
  lemma DigitCodes(s: string, n: nat, d: nat, width: nat)
    requires d < 16 && if width == 0 then s == "" && n == 0 else CodeOf(s, n, width)
    ensures CodeOf(s + [HexDigit(d)], 16 * n + d, width + 1)
  {
    DigitReads(d);
    hide HexDigit;
    var t := s + [HexDigit(d)];
    assert t[..|t| - 1] == s;
    NoDigits();
  }

  lemma NoDigits()
    ensures ReadHex("") == 0
  {
  }

  lemma DigitReads(d: nat)
    requires d < 16
    ensures HexDigit(d) in HEX
    ensures HexDigit(d) as int == if d < 10 then '0' as int + d else 'a' as int + d - 10
  {
  }

  /** A hidden character is written out: as its code, after a letter for the number of digits. */
  ghost predicate WrittenOut(e: string, c: char, control: bool) {
    if control then "\\x" <= e && CodeOf(e[2..], c as int, 2)
    else if c as int <= 0xFFFF then "\\u" <= e && CodeOf(e[2..], c as int, 4)
    else "\\U" <= e && CodeOf(e[2..], c as int, 8)
  }

  /** Control characters lie below U+0100, where two digits hold them. */
  ghost predicate Plausible(category: Classifier) { forall c | category(c).Control? :: c as int < 0x100 }

  lemma CategoryWritten(c: char, category: Classifier)
    requires Plausible(category)
    ensures category(c).OtherCategory? ==> EscapeCategory(c, category) == [c]
    ensures !category(c).OtherCategory? ==> WrittenOut(EscapeCategory(c, category), c, category(c).Control?)
  {
    assert PowerOf16(2) == 0x100 by { assert PowerOf16(1) == 16; }
    assert PowerOf16(4) == 0x1_0000 by { assert PowerOf16(3) == 0x1000; }
    assert PowerOf16(8) >= 0x11_0000 by { assert PowerOf16(6) == 0x100_0000 by { assert PowerOf16(5) == 0x10_0000; } }
    hide PowerOf16, Hex, CodeOf;
    var e, n := EscapeCategory(c, category), c as int;
    match category(c)
    case Control =>
      HexReads(n, 2);
      assert e[2..] == Hex(n, 2);
    case OtherCategory =>
    case _ =>
      if n <= 0xFFFF {
        HexReads(n, 4);
        assert e[2..] == Hex(n, 4);
      } else {
        HexReads(n, 8);
        assert e[2..] == Hex(n, 8);
      }
  }

  /** Inline escapes, character by character: named ones for the three line characters, written-out
      codes for the other hidden ones, and everything else as it is. */
  lemma ControlsEscaped(c: char, category: Classifier)
    requires Plausible(category)
    ensures c == '\n' ==> EscapeControls([c], category) == "\\n"
    ensures c == '\r' ==> EscapeControls([c], category) == "\\r"
    ensures c == '\t' ==> EscapeControls([c], category) == "\\t"
    ensures c !in "\n\r\t" && category(c).OtherCategory? ==> EscapeControls([c], category) == [c]
    ensures c !in "\n\r\t" && !category(c).OtherCategory? ==>
              WrittenOut(EscapeControls([c], category), c, category(c).Control?)
  {
    CategoryWritten(c, category);
    var lines := "\n\r\t";
    assert lines[0] == '\n' && lines[1] == '\r' && lines[2] == '\t';
    assert [c][1..] == "" && EscapeControls("", category) == "";
    assert EscapeControls([c], category) ==
           (if c == '\n' then "\\n" else if c == '\r' then "\\r" else if c == '\t' then "\\t"
            else EscapeCategory(c, category));
  }

  /** In a code block line feeds and tabs stay. */
  lemma BlockEscaped(c: char, category: Classifier)
    requires Plausible(category)
    ensures c == '\n' || c == '\t' || category(c).OtherCategory? ==> EscapeCodeBlock([c], category) == [c]
    ensures c != '\n' && c != '\t' && !category(c).OtherCategory? ==>
              WrittenOut(EscapeCodeBlock([c], category), c, category(c).Control?)
  {
    CategoryWritten(c, category);
    assert [c][1..] == "" && EscapeCodeBlock("", category) == "";
    assert EscapeCodeBlock([c], category) == if c == '\n' || c == '\t' then [c] else EscapeCategory(c, category);
  }

  /** Texts are escaped piece by piece. */
  lemma {:induction false} EscapesJoin(a: string, b: string, category: Classifier)
    ensures EscapeControls(a + b, category) == EscapeControls(a, category) + EscapeControls(b, category)
    ensures EscapeCodeBlock(a + b, category) == EscapeCodeBlock(a, category) + EscapeCodeBlock(b, category)
  {
    hide EscapeControls, EscapeCodeBlock;
    if a == "" {
      NothingEscaped(category);
      assert a + b == b;
    } else {
      EscapesJoin(a[1..], b, category);
      FirstEscaped(a, category);
      FirstEscaped(a + b, category);
      assert (a + b)[1..] == a[1..] + b;
    }
  }

  lemma NothingEscaped(category: Classifier)
    ensures EscapeControls("", category) == "" && EscapeCodeBlock("", category) == ""
  {
  }

  function ControlEscape(c: char, category: Classifier): string {
    if c == '\n' then "\\n" else if c == '\r' then "\\r" else if c == '\t' then "\\t" else EscapeCategory(c, category)
  }

  function BlockEscape(c: char, category: Classifier): string {
    if c == '\n' || c == '\t' then [c] else EscapeCategory(c, category)
  }

  lemma EscapeStep(s: string, category: Classifier)
    requires s != ""
    ensures EscapeControls(s, category) == ControlEscape(s[0], category) + EscapeControls(s[1..], category)
    ensures EscapeCodeBlock(s, category) == BlockEscape(s[0], category) + EscapeCodeBlock(s[1..], category)
  {
    hide EscapeCategory;
  }

  lemma FirstEscaped(s: string, category: Classifier)
    requires s != ""
    ensures EscapeControls(s, category) == EscapeControls([s[0]], category) + EscapeControls(s[1..], category)
    ensures EscapeCodeBlock(s, category) == EscapeCodeBlock([s[0]], category) + EscapeCodeBlock(s[1..], category)
  {
    hide EscapeControls, EscapeCodeBlock, ControlEscape, BlockEscape;
    var one := [s[0]];
    assert one[0] == s[0] && one[1..] == "";
    EscapeStep(s, category);
    EscapeStep(one, category);
    NothingEscaped(category);
  }

  // Info strings and spans.

  /** The reader of spans takes each of the three line endings as one space. */
  lemma {:induction false} EndingsAreSpaces(a: string, ending: string, b: string)
    requires OneLine(a) && ending in {"\n", "\r", "\r\n"} && (ending == "\r" ==> b == "" || b[0] != '\n')
    ensures ToSpaces(a + ending + b) == a + " " + ToSpaces(b)
  {
    var s := a + ending + b;
    if a == "" {
      assert s[|ending|..] == b;
    } else {
      assert a[0] in a;
      EndingsAreSpaces(a[1..], ending, b);
      assert s[1..] == a[1..] + ending + b;
      assert [a[0]] + (a[1..] + " " + ToSpaces(b)) == a + " " + ToSpaces(b);
    }
  }

  /** An empty value is shown as unset. */
  lemma UnsetIsShown(escape: bool, category: Classifier)
    ensures InlineCode("", escape, category) == "_(unset)_"
  {
  }

  /** The language of a block is the given one without surrounding whitespace, if that is one of 1 to
      40 plain characters, and none otherwise. */
  lemma LanguageExactly(before: string, lang: string, after: string)
    requires Blank(before) && Blank(after) && (lang == "" || (!IsSpace(lang[0]) && !IsSpace(lang[|lang| - 1])))
    ensures Language(before + lang + after) == if |lang| <= 40 && PlainChars(lang) then lang else ""
  {
    hide IsSpace, Blank;
    assert before + lang + after == before + (lang + after);
    StripKeepsNonBlank(before, lang + after);
    if lang == "" {
      StripKeepsNonBlank(after, "");
      assert lang + after == after + "";
    } else {
      StripRightBlank(lang, after);
      PlainExactly(lang);
    }
  }

  lemma {:induction false} StripRightBlank(s: string, tail: string)
    requires Blank(tail) && s != "" && !IsSpace(s[|s| - 1])
    ensures StripRight(s + tail) == s
  {
    hide IsSpace;
    if tail == "" {
      assert s + tail == s;
    } else {
      var n := |tail| - 1;
      StripRightBlank(s, tail[..n]);
      assert (s + tail)[..|s| + n] == s + tail[..n];
    }
  }

  lemma PlainExactly(s: string)
    requires s != ""
    ensures SafeLanguage(s) <==> |s| <= 40 && PlainChars(s)
  {
    assert forall k | 0 <= k < |s| :: LanguageChar(s[k]) <==>
             s[k] in "_+.#-" || 'A' <= s[k] <= 'Z' || 'a' <= s[k] <= 'z' || '0' <= s[k] <= '9';
  }

  predicate PlainChars(s: string) {
    forall k | 0 <= k < |s| ::
      s[k] in "_+.#-" || 'A' <= s[k] <= 'Z' || 'a' <= s[k] <= 'z' || '0' <= s[k] <= '9'
  }

  // The two neutralisers, line by line.

  /** A backtick fence of at most three spaces and three or more backticks, whose info string has no
      backtick and starts, after whitespace, with the word in any case. */
  ghost predicate Suggests(line: string, indent: nat, size: nat, blank: string, word: string, rest: string) {
    && indent <= 3 && size >= 3
    && line == Repeat(' ', indent) + Repeat('`', size) + (blank + word + rest)
    && Blank(blank) && '`' !in blank + word + rest
    && |word| == 10 && forall k | 0 <= k < 10 :: word[k] == "suggestion"[k] || word[k] == "SUGGESTION"[k]
  }

  /** A suggestion line becomes a plain fence with the word text; every other line stays. */
  lemma SuggestionsExactly(l: Line, indent: nat, size: nat, blank: string, word: string, rest: string)
    requires BreakFree(l.body) && IsEnding(l.ending)
    ensures Suggests(Seen(l), indent, size, blank, word, rest) ==>
              NeutralLine(l) == Line(Repeat(' ', indent) + Repeat('`', size) + "text", Unseen(l))
    ensures NeutralLine(l) != l ==>
              exists i: nat, n: nat, b: string, w: string, r: string :: Suggests(Seen(l), i, n, b, w, r)
  {
    SeenHasNoNewline(l);
    hide Seen, Unseen, MatchFence, Blank;
    if Suggests(Seen(l), indent, size, blank, word, rest) {
      SuggestsFence(Seen(l), indent, size, blank, word, rest);
    }
    if SuggestionFence(Seen(l)) {
      var i, n, b, w, r := FenceSuggests(Seen(l));
    }
  }

  lemma SuggestsFence(line: string, indent: nat, size: nat, blank: string, word: string, rest: string)
    requires '\n' !in line && Suggests(line, indent, size, blank, word, rest)
    ensures SuggestionFence(line)
    ensures MatchFence(line) == Some(FenceLine(indent, Fence('`', size), blank + word + rest))
  {
    hide MatchFence, StartsSuggestion, Blank;
    var suffix := blank + word + rest;
    assert suffix != "" && suffix[0] in suffix;
    FenceIsMatched(line, FenceLine(indent, Fence('`', size), suffix));
    WordStarts(blank, word, rest);
  }

  lemma WordStarts(blank: string, word: string, rest: string)
    requires Blank(blank) && |word| == 10
    requires forall k | 0 <= k < 10 :: word[k] == "suggestion"[k] || word[k] == "SUGGESTION"[k]
    ensures StartsSuggestion(blank + word + rest)
  {
    hide Blank, StripLeft, LowerAscii;
    var t := word + rest;
    assert blank + word + rest == blank + t;
    StripKeepsNonBlank(blank, t);
    LettersOfWord();
    StripLeftStep(t);
    assert t[0] == word[0];
    forall k | 0 <= k < 10 ensures LowerAscii(t[k]) == "suggestion"[k] {
      assert t[k] == word[k];
    }
  }

  lemma LettersOfWord()
    ensures "suggestion"[0] == 's' && "SUGGESTION"[0] == 'S' && !IsSpace('s') && !IsSpace('S')
    ensures forall k | 0 <= k < 10 ::
              'a' <= "suggestion"[k] <= 'z' && "SUGGESTION"[k] as int + 32 == "suggestion"[k] as int
    ensures forall c: char, k | 0 <= k < 10 ::
              LowerAscii(c) == "suggestion"[k] <==> c == "suggestion"[k] || c == "SUGGESTION"[k]
  {
  }

  lemma FenceSuggests(line: string) returns (indent: nat, size: nat, blank: string, word: string, rest: string)
    requires '\n' !in line && SuggestionFence(line)
    ensures Suggests(line, indent, size, blank, word, rest)
  {
    hide MatchFence, StartsSuggestion, Blank;
    var m := MatchFence(line).value;
    MatchedIsFence(line, m);
    indent, size := m.indent, m.fence.size;
    blank, word, rest := WordInFront(m.suffix);
  }

  lemma WordInFront(suffix: string) returns (blank: string, word: string, rest: string)
    requires StartsSuggestion(suffix)
    ensures suffix == blank + word + rest && Blank(blank)
    ensures |word| == 10 && forall k | 0 <= k < 10 :: word[k] == "suggestion"[k] || word[k] == "SUGGESTION"[k]
  {
    hide StripLeft, Blank, LowerAscii;
    var t := StripLeft(suffix);
    StripLeftShape(suffix);
    blank, word, rest := suffix[..|suffix| - |t|], t[..10], t[10..];
    assert t == word + rest;
    LettersOfWord();
    forall k | 0 <= k < 10 ensures word[k] == "suggestion"[k] || word[k] == "SUGGESTION"[k] {
      assert word[k] == t[k];
    }
  }

  /** A line whose first visible character is a slash gets a backslash in front of it; every other line
      stays. */
  lemma SlashesExactly(l: Line, blank: string, rest: string)
    requires Blank(blank)
    ensures l.body == blank + "/" + rest ==> QuietLine(l) == Line(blank + "\\/" + rest, l.ending)
    ensures QuietLine(l) != l ==> exists b: string, r: string :: Blank(b) && l.body == b + "/" + r
  {
    hide Blank, StripLeft;
    if l.body == blank + "/" + rest {
      SlashSeen(l.body, blank, rest);
      assert l.body[..|l.body| - |"/" + rest|] == blank;
      assert blank + "\\" + ("/" + rest) == blank + "\\/" + rest;
    }
    if SlashFirst(l.body) {
      var t := StripLeft(l.body);
      StripLeftShape(l.body);
      var b := l.body[..|l.body| - |t|];
      assert t == "/" + t[1..];
      assert l.body == b + "/" + t[1..];
    }
  }

  lemma SlashSeen(s: string, blank: string, rest: string)
    requires Blank(blank) && s == blank + "/" + rest
    ensures StripLeft(s) == "/" + rest
  {
    hide Blank, StripLeft;
    assert s == blank + ("/" + rest);
    StripKeepsNonBlank(blank, "/" + rest);
    SlashIsVisible();
    StripLeftStep("/" + rest);
  }

  lemma SlashIsVisible()
    ensures !IsSpace('/')
  {
  }
}
