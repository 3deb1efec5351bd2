/** What an upsert leaves on the tracker, issue by issue, and which issues it looks for. */
module IssueEffects {
  import opened Json
  import opened Remote
  import opened Collections
  import opened Issues
  import Placeholder

  /** The header that names a version. */
  function Header(version: string): string { "<!-- ocr-compat-candidate:v" + version + " -->" }

  // What an answered upsert leaves.

  /** The issue is open and carries the title and the body that were asked for. */
  predicate Carries(issue: Issue, r: Request) {
    issue.open && issue.title == r.title && issue.body == Some(Header(r.version) + "\n" + r.rest)
  }

  /** Nothing but title, body and state may differ. */
  predicate SameIssue(before: Issue, after: Issue) {
    && before.number == after.number && before.author == after.author
    && before.pull == after.pull && before.labels == after.labels
  }

  /** After an answered upsert every issue with the returned number, of which there is one, is open
      and carries what was asked for; if it was there before, author and labels are the same; every
      other issue is untouched. */
  lemma UpsertEffect(w: World, owner: string, r: Request, weather: Weather)
    requires AfterUpsert(w, owner, r, weather).1.Ok?
    requires forall k | 0 <= k < |w.issues| :: w.issues[k].number < w.nextNumber
    ensures var (v, n) := AfterUpsert(w, owner, r, weather);
            && n.value > 0 && |w.issues| <= |v.issues|
            && (exists issue :: issue in v.issues && issue.number == n.value && Carries(issue, r))
            && (forall k | 0 <= k < |w.issues| && w.issues[k].number == n.value ::
                  SameIssue(w.issues[k], v.issues[k]) && Carries(v.issues[k], r))
            && (forall k | 0 <= k < |w.issues| && w.issues[k].number != n.value :: v.issues[k] == w.issues[k])
  {
    hide VersionText, Canonical, Numbers;
    var found := Found(w, Marker(r.version), owner);
    var (v, n) := AfterUpsert(w, owner, r, weather);
    if found.value.Some? {
      FoundIsCanonical(w, Marker(r.version), owner);
      FoundIsPositive(w, Marker(r.version), owner);
      var k :| 0 <= k < |w.issues| && w.issues[k].number == n.value;
      assert v.issues[k] in v.issues && Carries(v.issues[k], r);
    } else {
      var last := v.issues[|w.issues|];
      assert last in v.issues && Carries(last, r);
    }
  }

  lemma FoundIsPositive(w: World, marker: string, owner: string)
    requires Found(w, marker, owner).Ok? && Found(w, marker, owner).value.Some?
    ensures Found(w, marker, owner).value.value > 0
  {
    hide FirstLine, Owns;
    assert Found(w, marker, owner).value.value in Numbers(w.issues, marker, owner);
  }

  /** What a new issue is: it comes last, is the requester's, and has one label. */
  lemma CreationEffect(w: World, owner: string, r: Request, weather: Weather)
    requires |AfterUpsert(w, owner, r, weather).0.issues| != |w.issues|
    ensures var v, k := AfterUpsert(w, owner, r, weather).0, |w.issues|;
            && |v.issues| == k + 1 && v.issues[..k] == w.issues && v.nextNumber == w.nextNumber + 1
            && v.issues[k].number == w.nextNumber && v.issues[k].author == r.me
            && v.issues[k].labels == {"dependencies"} && !v.issues[k].pull && Carries(v.issues[k], r)
  {
    hide VersionText, Found;
  }

  /** Without a lost answer a failed upsert has changed nothing, and with one the tracker is as
      after an answered one. */
  lemma FailureEffect(w: World, owner: string, r: Request, weather: Weather)
    requires w.nextNumber > 0 && AfterUpsert(w, owner, r, weather).1.Err?
    ensures AfterUpsert(w, owner, r, weather).0 in {w, AfterUpsert(w, owner, r, Clear).0}
    ensures AfterUpsert(w, owner, r, weather).0 == w || weather.AnswerLost?
  {
    hide VersionText, Found;
  }

  /** An upsert in clear weather is answered exactly when the version is one, the listing fits
      1,000 issues, and at most one number stands for the version. */
  lemma AnsweredExactly(w: World, owner: string, r: Request)
    requires w.nextNumber > 0
    ensures AfterUpsert(w, owner, r, Clear).1.Ok? <==>
            && VersionText(r.version) && |w.issues| < 1_000
            && (forall k, l | 0 <= k < |w.issues| && 0 <= l < |w.issues|
                              && StandsFor(w.issues[k], r.version, owner) && StandsFor(w.issues[l], r.version, owner) ::
                  w.issues[k].number == w.issues[l].number)
  {
    hide VersionText, StandsFor, Canonical;
    if VersionText(r.version) {
      var numbers := Numbers(w.issues, Marker(r.version), owner);
      forall issue ensures Canonical(issue, Marker(r.version), owner) <==> StandsFor(issue, r.version, owner) {
        StandsExactly(issue, r.version, owner);
      }
      if |numbers| <= 1 {
        forall m, n | m in numbers && n in numbers ensures m == n { OneElement(numbers, m, n); }
        forall k | 0 <= k < |w.issues| && StandsFor(w.issues[k], r.version, owner)
          ensures w.issues[k].number in numbers
        {
          assert w.issues[k] in w.issues;
        }
      } else {
        var m, n := TwoElements(numbers);
        var k :| 0 <= k < |w.issues| && Canonical(w.issues[k], Marker(r.version), owner) && w.issues[k].number == m;
        var l :| 0 <= l < |w.issues| && Canonical(w.issues[l], Marker(r.version), owner) && w.issues[l].number == n;
      }
    }
  }

  lemma OneElement(s: set<nat>, m: nat, n: nat)
    requires |s| <= 1 && m in s && n in s
    ensures m == n
  {
    SubsetSize({m, n}, s);
  }

  lemma TwoElements(s: set<nat>) returns (m: nat, n: nat)
    requires |s| > 1
    ensures m in s && n in s && m != n
  {
    m :| m in s;
    assert |s - {m}| > 0;
    n :| n in s - {m};
  }

  // Which issues stand for a version.

  /** The header is the whole first line; one carriage return before the break does not count. */
  predicate Heads(body: string, header: string) {
    body in {header, header + "\r"} || header + "\n" <= body || header + "\r\n" <= body
  }

  predicate SameLetter(a: char, b: char) {
    || a == b
    || ('A' <= a <= 'Z' && b as int == a as int + 32)
    || ('A' <= b <= 'Z' && a as int == b as int + 32)
  }

  predicate SameName(a: string, b: string) {
    |a| == |b| && forall k | 0 <= k < |a| :: SameLetter(a[k], b[k])
  }

  /** The owner of the repository, or the workflow's own account. */
  predicate Trusted(author: Option<Author>, owner: string) {
    && author.Some? && author.value.id > 0
    && (|| (author.value.kind.User? && SameName(author.value.login, owner))
        || author.value == Author(Bot, "github-actions[bot]", 41_898_282))
  }

  predicate StandsFor(issue: Issue, version: string, owner: string) {
    && !issue.pull && issue.number > 0 && Trusted(issue.author, owner)
    && issue.body.Some? && Heads(issue.body.value, Header(version))
    && !(!issue.open && "duplicate" in issue.labels)
  }

  /** The lookup finds exactly the issues that stand for the version. */
  lemma StandsExactly(issue: Issue, version: string, owner: string)
    requires VersionText(version)
    ensures Canonical(issue, Marker(version), owner) <==> StandsFor(issue, version, owner)
  {
    hide VersionText, Fold, FirstLine, Heads, SameName;
    if issue.author.Some? { NamesFold(issue.author.value.login, owner); }
    if issue.body.Some? { HeadsExactly(issue.body.value, version); }
  }

  lemma {:induction false} NamesFold(a: string, b: string)
    ensures Fold(a) == Fold(b) <==> SameName(a, b)
    decreases |a|
  {
    FoldLength(a);
    FoldLength(b);
    if a != "" && b != "" {
      NamesFold(a[1..], b[1..]);
      assert Fold(a)[0] == Fold(b)[0] <==> SameLetter(a[0], b[0]);
      assert Fold(a)[1..] == Fold(a[1..]) && Fold(b)[1..] == Fold(b[1..]);
      if SameName(a, b) {
        forall k | 0 <= k < |a[1..]| ensures SameLetter(a[1..][k], b[1..][k]) {
          assert a[1..][k] == a[k + 1] && b[1..][k] == b[k + 1];
        }
      }
      if SameLetter(a[0], b[0]) && SameName(a[1..], b[1..]) {
        forall k | 0 <= k < |a| ensures SameLetter(a[k], b[k]) {
          if k > 0 { assert SameLetter(a[1..][k - 1], b[1..][k - 1]); }
        }
      }
    }
  }

  lemma {:induction false} FoldLength(s: string)
    ensures |Fold(s)| == |s|
  {
    if s != "" { FoldLength(s[1..]); }
  }

  lemma {:induction false} UpToIs(s: string, c: char)
    ensures UpTo(s, c) <= s && c !in UpTo(s, c)
    ensures UpTo(s, c) == s || s[|UpTo(s, c)|] == c
  {
    if s != "" && s[0] != c { UpToIs(s[1..], c); }
  }

  lemma HeadsExactly(body: string, version: string)
    requires VersionText(version)
    ensures FirstLine(body) == Marker(version) <==> Heads(body, Header(version))
  {
    hide VersionText, Marker;
    VersionIsOneLine(version);
    var m, line := Header(version), UpTo(body, '\n');
    MarkerIsHeader(version);
    UpToIs(body, '\n');
    if FirstLine(body) == m {
      assert line == m || line == m + "\r";
      if line != body { assert body == line + "\n" + body[|line| + 1..]; }
    }
    if Heads(body, m) { HeadIsFirstLine(body, m, line); }
  }

  lemma MarkerIsHeader(version: string)
    requires '\n' !in version
    ensures Marker(version) == Header(version)
    ensures '\n' !in Header(version) && |Header(version)| > 0 && Header(version)[|Header(version)| - 1] == '>'
  {
  }

  lemma HeadIsFirstLine(body: string, m: string, line: string)
    requires Heads(body, m) && '\n' !in m && m != "" && m[|m| - 1] != '\r'
    requires line <= body && '\n' !in line && (line == body || body[|line|] == '\n')
    ensures WithoutReturn(line) == m
  {
    if m + "\n" <= body { SameLine(body, m, line); }
    else if m + "\r\n" <= body { SameLine(body, m + "\r", line); }
    else { SameLine(body, body, line); }
  }

  lemma SameLine(body: string, a: string, b: string)
    requires a <= body && b <= body && '\n' !in a && '\n' !in b
    requires (a == body || body[|a|] == '\n') && (b == body || body[|b|] == '\n')
    ensures a == b
  {
    NoBreakAt(b, body, |a|);
    NoBreakAt(a, body, |b|);
  }

  lemma NoBreakAt(line: string, body: string, k: nat)
    requires line <= body && '\n' !in line
    ensures k < |line| ==> body[k] != '\n'
  {
    if k < |line| { assert line[k] in line; }
  }

  /** An answered upsert returns the issue that stands for the version, if there is one, and the
      next number otherwise. */
  lemma AnswersTheOne(w: World, owner: string, r: Request, weather: Weather)
    requires AfterUpsert(w, owner, r, weather).1.Ok?
    ensures var n := AfterUpsert(w, owner, r, weather).1.value;
            && (forall k | 0 <= k < |w.issues| && StandsFor(w.issues[k], r.version, owner) :: w.issues[k].number == n)
            && ((forall k | 0 <= k < |w.issues| :: !StandsFor(w.issues[k], r.version, owner)) ==> n == w.nextNumber)
  {
    hide VersionText, StandsFor, Canonical;
    var numbers := Numbers(w.issues, Marker(r.version), owner);
    forall issue ensures Canonical(issue, Marker(r.version), owner) <==> StandsFor(issue, r.version, owner) {
      StandsExactly(issue, r.version, owner);
    }
    forall k | 0 <= k < |w.issues| && StandsFor(w.issues[k], r.version, owner) ensures w.issues[k].number in numbers {
      assert w.issues[k] in w.issues;
    }
  }

  // Version texts.

  /** The three numbers of a version, written out. */
  function Spelled(prefix: string, major: nat, minor: nat, patch: nat): string {
    prefix + Placeholder.Decimal(major) + "." + Placeholder.Decimal(minor) + "." + Placeholder.Decimal(patch)
  }

  /** The digit strings without a leading zero are the numerals. */
  lemma DigitsExactly(s: string)
    ensures Digits(s) <==> exists n: nat :: s == Placeholder.Decimal(n)
  {
    if Digits(s) {
      NumeralOf(s);
    }
    if n: nat :| s == Placeholder.Decimal(n) {
      NumeralIsDigits(n);
    }
  }

  lemma {:induction false} NumeralIsDigits(n: nat)
    ensures Digits(Placeholder.Decimal(n)) && (n > 0 ==> Placeholder.Decimal(n)[0] != '0')
  {
    if n >= 10 { NumeralIsDigits(n / 10); }
  }

  lemma {:induction false} NumeralOf(s: string)
    requires Digits(s)
    ensures Placeholder.Decimal(Placeholder.ReadDecimal(s)) == s
    ensures s != "0" ==> Placeholder.ReadDecimal(s) > 0
  {
    var head, digit := s[..|s| - 1], s[|s| - 1] as int - '0' as int;
    assert s == head + [s[|s| - 1]];
    if |s| > 1 {
      assert Digits(head) && head[0] == s[0];
      NumeralOf(head);
      var n := Placeholder.ReadDecimal(head);
      assert Placeholder.ReadDecimal(s) == 10 * n + digit;
      assert (10 * n + digit) / 10 == n && (10 * n + digit) % 10 == digit;
    } else {
      assert head == [] && Placeholder.ReadDecimal(s) == digit;
    }
  }

  /** The version texts are exactly the spellings of three numbers, with or without a `v`. */
  lemma VersionTextExactly(s: string)
    ensures VersionText(s) <==>
            exists prefix, a: nat, b: nat, c: nat :: prefix in {"", "v"} && s == Spelled(prefix, a, b, c)
  {
    hide VersionText, Spelled;
    if VersionText(s) {
      var prefix, a, b, c := VersionIsSpelled(s);
    }
    if prefix, a: nat, b: nat, c: nat :| prefix in {"", "v"} && s == Spelled(prefix, a, b, c) {
      SpelledIsVersion(prefix, a, b, c);
    }
  }

  lemma VersionIsSpelled(s: string) returns (prefix: string, a: nat, b: nat, c: nat)
    requires VersionText(s)
    ensures prefix in {"", "v"} && s == Spelled(prefix, a, b, c)
  {
    hide Digits, Spelled, Dotted, Unprefixed;
    var t := Unprefixed(s);
    prefix := PrefixOf(s);
    var i, j :| 0 <= i < j < |s| && Dotted(t, i, j);
    var x, y, z := PartsOf(t, i, j);
    a, b, c := PartsSpell(prefix, x, y, z);
  }

  lemma PrefixOf(s: string) returns (prefix: string)
    ensures prefix in {"", "v"} && s == prefix + Unprefixed(s)
  {
    prefix := if |s| > 0 && s[0] == 'v' then "v" else "";
  }

  lemma PartsOf(t: string, i: nat, j: nat) returns (x: string, y: string, z: string)
    requires Dotted(t, i, j)
    ensures Digits(x) && Digits(y) && Digits(z) && t == x + "." + y + "." + z
  {
    hide Digits;
    x, y, z := t[..i], t[i + 1..j], t[j + 1..];
  }

  lemma PartsSpell(prefix: string, x: string, y: string, z: string) returns (a: nat, b: nat, c: nat)
    requires Digits(x) && Digits(y) && Digits(z)
    ensures prefix + (x + "." + y + "." + z) == Spelled(prefix, a, b, c)
  {
    hide Digits, Placeholder.Decimal;
    DigitsExactly(x);
    DigitsExactly(y);
    DigitsExactly(z);
    a :| x == Placeholder.Decimal(a);
    b :| y == Placeholder.Decimal(b);
    c :| z == Placeholder.Decimal(c);
  }

  lemma SpelledIsVersion(prefix: string, a: nat, b: nat, c: nat)
    requires prefix in {"", "v"}
    ensures VersionText(Spelled(prefix, a, b, c))
  {
    hide Placeholder.Decimal, Digits, Dotted;
    var x, y, z := Placeholder.Decimal(a), Placeholder.Decimal(b), Placeholder.Decimal(c);
    NumeralIsDigits(a);
    NumeralIsDigits(b);
    NumeralIsDigits(c);
    var s, t := Spelled(prefix, a, b, c), x + "." + y + "." + z;
    SplitsAtDots(x, y, z, t);
    assert '0' <= x[0] <= '9' && t[0] == x[0];
    assert s == prefix + t;
    UnprefixedIs(prefix, t);
    assert Dotted(Unprefixed(s), |x|, |x| + 1 + |y|);
  }

  lemma UnprefixedIs(prefix: string, t: string)
    requires prefix in {"", "v"} && t != "" && t[0] != 'v'
    ensures Unprefixed(prefix + t) == t
  {
    if prefix == "" { assert prefix + t == t; }
  }

  lemma SplitsAtDots(x: string, y: string, z: string, t: string)
    requires t == x + "." + y + "." + z && Digits(x) && Digits(y) && Digits(z)
    ensures Dotted(t, |x|, |x| + 1 + |y|)
  {
    hide Digits;
    var i, j := |x|, |x| + 1 + |y|;
    assert t[..i] == x && t[i + 1..j] == y && t[j + 1..] == z;
  }
}
