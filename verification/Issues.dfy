/** The qualification issue of a version: found by its marker, otherwise created. */
module Issues {
  import opened Json
  import opened PyText
  import opened Remote

  const MAX_ISSUE_PAGES := 10
  const ISSUES_PER_PAGE := 100
  const GITHUB_ACTIONS_LOGIN := "github-actions[bot]"
  const GITHUB_ACTIONS_USER_ID := 41898282

  datatype Kind = User | Bot | OtherKind

  datatype Author = Author(kind: Kind, login: string, id: int)

  datatype Issue = Issue(
    number: nat, title: string, body: Option<string>, author: Option<Author>,
    pull: bool, open: bool, labels: set<string>)

  datatype World = World(issues: seq<Issue>, nextNumber: nat)

  // Markers.

  predicate Digits(s: string) {
    |s| > 0 && (forall k | 0 <= k < |s| :: '0' <= s[k] <= '9') && (s[0] == '0' ==> |s| == 1)
  }

  /** An optional `v` and three numbers without leading zeros. */
  predicate VersionText(s: string) {
    exists i, j | 0 <= i < j < |s| :: Dotted(Unprefixed(s), i, j)
  }

  function Unprefixed(s: string): string { if |s| > 0 && s[0] == 'v' then s[1..] else s }

  /** Numbers before, between and after two dots. */
  predicate Dotted(t: string, i: nat, j: nat) {
    && i < j < |t| && t[i] == '.' && t[j] == '.'
    && Digits(t[..i]) && Digits(t[i + 1..j]) && Digits(t[j + 1..])
  }

  const MARKER_HEAD := "<!-- ocr-compat-candidate:v"
  const MARKER_TAIL := " -->"

  function Marker(version: string): string { MARKER_HEAD + version + MARKER_TAIL }

  function UpTo(s: string, c: char): string {
    if s == "" || s[0] == c then "" else [s[0]] + UpTo(s[1..], c)
  }

  function WithoutReturn(s: string): string {
    if |s| > 0 && s[|s| - 1] == '\r' then s[..|s| - 1] else s
  }

  /** The first line of a body; one carriage return before the break is not part of it. */
  function FirstLine(body: string): string { WithoutReturn(UpTo(body, '\n')) }

  /** Every rendered body starts with its marker; what follows is free. */
  function Body(version: string, rest: string): string { Marker(version) + "\n" + rest }

  function Fold(s: string): string {
    if s == "" then ""
    else [LowerAscii(s[0])] + Fold(s[1..])
  }

  predicate Owns(author: Option<Author>, owner: string) {
    && author.Some? && author.value.id > 0
    && (|| (author.value.kind.User? && Fold(author.value.login) == Fold(owner))
        || (author.value.kind.Bot? && author.value.login == GITHUB_ACTIONS_LOGIN
              && author.value.id == GITHUB_ACTIONS_USER_ID))
  }

  /** An issue that stands for the version of this marker. */
  predicate Canonical(issue: Issue, marker: string, owner: string) {
    && !issue.pull && issue.number > 0
    && issue.body.Some? && FirstLine(issue.body.value) == marker
    && Owns(issue.author, owner)
    && (issue.open || "duplicate" !in issue.labels)
  }

  function Numbers(issues: seq<Issue>, marker: string, owner: string): set<nat> {
    set issue | issue in issues && Canonical(issue, marker, owner) :: issue.number
  }

  // What an upsert does, as a function of the tracker before it.

  datatype Request = Request(version: string, rest: string, title: string, me: Option<Author>)

  function Found(w: World, marker: string, owner: string): Result<Option<nat>> {
    var numbers := Numbers(w.issues, marker, owner);
    if |w.issues| >= MAX_ISSUE_PAGES * ISSUES_PER_PAGE || |numbers| > 1 then Err
    else if numbers == {} then Ok(None) else Ok(Some(Only(numbers)))
  }

  function Only(numbers: set<nat>): (n: nat)
    requires |numbers| == 1
    ensures numbers == {n}
  {
    var n :| n in numbers;
    assert |numbers - {n}| == 0;
    assert forall m | m in numbers :: m != n ==> m in numbers - {n};
    n
  }

  function Created(w: World, r: Request): Issue {
    Issue(w.nextNumber, r.title, Some(Body(r.version, r.rest)), r.me, false, true, {"dependencies"})
  }

  function Updated(issue: Issue, number: nat, r: Request): Issue {
    if issue.number != number then issue
    else issue.(title := r.title, body := Some(Body(r.version, r.rest)), open := true)
  }

  function UpdatedAll(issues: seq<Issue>, number: nat, r: Request): (s: seq<Issue>)
    ensures |s| == |issues| && forall k | 0 <= k < |issues| :: s[k] == Updated(issues[k], number, r)
  {
    seq(|issues|, k requires 0 <= k < |issues| => Updated(issues[k], number, r))
  }

  function AfterUpsert(w: World, owner: string, r: Request, weather: Weather): (World, Result<nat>) {
    if !VersionText(r.version) || weather.ReadFails? then (w, Err)
    else
      var found := Found(w, Marker(r.version), owner);
      if found.Err? || weather.WriteRefused? then (w, Err)
      else if found.value.None? then
        (World(w.issues + [Created(w, r)], w.nextNumber + 1),
         if weather.AnswerLost? || w.nextNumber == 0 then Err else Ok(w.nextNumber))
      else
        (World(UpdatedAll(w.issues, found.value.value, r), w.nextNumber),
         if weather.AnswerLost? then Err else Ok(found.value.value))
  }

  class Tracker {
    var issues: seq<Issue>
    var nextNumber: nat

    constructor ()
      ensures Now() == World([], 1)
    {
      issues, nextNumber := [], 1;
    }

    ghost function Now(): World reads this { World(issues, nextNumber) }

    method Find(marker: string, owner: string) returns (r: Result<Option<nat>>)
      ensures r == Found(Now(), marker, owner)
    {
      hide Canonical, Only, Numbers;
      var matches: set<nat> := {};
      NumbersNothing(marker, owner);
      var page := 1;
      while page <= MAX_ISSUE_PAGES
        invariant 1 <= page <= MAX_ISSUE_PAGES + 1 && (page - 1) * ISSUES_PER_PAGE <= |issues|
        invariant matches == Numbers(issues[..(page - 1) * ISSUES_PER_PAGE], marker, owner)
      {
        var items := Page(issues, ISSUES_PER_PAGE, page);
        var before := issues[..(page - 1) * ISSUES_PER_PAGE];
        assert before + items[..0] == before;
        for k := 0 to |items|
          invariant matches == Numbers(before + items[..k], marker, owner)
        {
          NumbersSnoc(before + items[..k], items[k], marker, owner);
          assert before + items[..k + 1] == before + items[..k] + [items[k]];
          if Canonical(items[k], marker, owner) { matches := matches + {items[k].number}; }
        }
        assert before + items[..|items|] == issues[..|before| + |items|];
        if |items| < ISSUES_PER_PAGE {
          assert before + items == issues;
          if |matches| > 1 { return Err; }
          return Ok(if matches == {} then None else Some(Only(matches)));
        }
        page := page + 1;
      }
      return Err;
    }

    method Upsert(owner: string, q: Request, weather: Weather) returns (r: Result<nat>)
      modifies this
      ensures (Now(), r) == AfterUpsert(old(Now()), owner, q, weather)
    {
      hide VersionText, Found;
      if !VersionText(q.version) || weather.ReadFails? { return Err; }
      var found := Find(Marker(q.version), owner);
      if found.Err? || weather.WriteRefused? { return Err; }
      if found.value.None? {
        var number := nextNumber;
        issues := issues + [Issue(number, q.title, Some(Body(q.version, q.rest)), q.me, false, true, {"dependencies"})];
        nextNumber := nextNumber + 1;
        if weather.AnswerLost? || number == 0 { return Err; }
        return Ok(number);
      }
      issues := UpdatedAll(issues, found.value.value, q);
      if weather.AnswerLost? { return Err; }
      return Ok(found.value.value);
    }
  }

  lemma NumbersNothing(marker: string, owner: string)
    ensures Numbers([], marker, owner) == {}
  {
  }

  lemma NumbersSnoc(issues: seq<Issue>, issue: Issue, marker: string, owner: string)
    ensures Numbers(issues + [issue], marker, owner) ==
            Numbers(issues, marker, owner) + (if Canonical(issue, marker, owner) then {issue.number} else {})
  {
    hide Canonical;
    forall i ensures i in issues + [issue] <==> i in issues || i == issue {
    }
  }

  // Markers name versions.

  lemma {:induction false} UpToStops(s: string, rest: string, c: char)
    requires c !in s
    ensures UpTo(s + [c] + rest, c) == s
  {
    if s != "" {
      UpToStops(s[1..], rest, c);
      assert (s + [c] + rest)[1..] == s[1..] + [c] + rest;
    }
  }

  lemma DigitsOnOneLine(s: string)
    requires Digits(s)
    ensures '\n' !in s
  {
  }

  lemma PartsOnOneLine(t: string, i: nat, j: nat)
    requires i < j < |t| && t[i] == '.' && t[j] == '.'
    requires '\n' !in t[..i] && '\n' !in t[i + 1..j] && '\n' !in t[j + 1..]
    ensures '\n' !in t
  {
    assert t == t[..i] + "." + t[i + 1..j] + "." + t[j + 1..];
  }

  lemma VersionIsOneLine(version: string)
    requires VersionText(version)
    ensures '\n' !in version
  {
    hide Digits;
    var t := Unprefixed(version);
    var i, j :| 0 <= i < j < |version| && Dotted(t, i, j);
    DigitsOnOneLine(t[..i]);
    DigitsOnOneLine(t[i + 1..j]);
    DigitsOnOneLine(t[j + 1..]);
    PartsOnOneLine(t, i, j);
    assert version == t || version == "v" + t;
  }

  /** The header of a rendered body is exactly its marker. */
  lemma BodyHeader(version: string, rest: string)
    requires VersionText(version)
    ensures FirstLine(Body(version, rest)) == Marker(version)
  {
    VersionIsOneLine(version);
    assert '\n' !in MARKER_HEAD && '\n' !in MARKER_TAIL;
    UpToStops(Marker(version), rest, '\n');
    var m := Marker(version);
    assert m[|m| - 1] == MARKER_TAIL[3];
  }

  lemma MarkerInjective(a: string, b: string)
    ensures Marker(a) == Marker(b) <==> a == b
  {
    if Marker(a) == Marker(b) {
      assert |a| == |b|;
      assert a == Marker(a)[|MARKER_HEAD|..|MARKER_HEAD| + |a|];
      assert b == Marker(b)[|MARKER_HEAD|..|MARKER_HEAD| + |b|];
    }
  }

  // Every serial run.

  /** The tracker's own numbering, and at most one canonical issue for this marker. */
  predicate Single(w: World, marker: string, owner: string) {
    && w.nextNumber > 0
    && (forall k | 0 <= k < |w.issues| :: 0 < w.issues[k].number < w.nextNumber)
    && (forall k, l | 0 <= k < l < |w.issues| :: w.issues[k].number != w.issues[l].number)
    && (forall k, l | 0 <= k < l < |w.issues| && Canonical(w.issues[k], marker, owner) ::
          !Canonical(w.issues[l], marker, owner))
  }

  /** What happens between upserts: people who are not the owner open issues and pull requests
      with any body, and anyone closes an issue that is not marked as a duplicate. */
  datatype Event =
    | Upserted(request: Request, weather: Weather)
    | Opened(issue: Issue)
    | Closed(number: nat)

  predicate Allowed(e: Event, owner: string) {
    e.Opened? ==> !Owns(e.issue.author, owner)
  }

  function Close(issue: Issue, number: nat): Issue {
    if issue.number == number && "duplicate" !in issue.labels then issue.(open := false) else issue
  }

  function CloseAll(issues: seq<Issue>, number: nat): (s: seq<Issue>)
    ensures |s| == |issues| && forall k | 0 <= k < |issues| :: s[k] == Close(issues[k], number)
  {
    seq(|issues|, k requires 0 <= k < |issues| => Close(issues[k], number))
  }

  function After(w: World, owner: string, e: Event): World {
    match e
    case Upserted(r, weather) => AfterUpsert(w, owner, r, weather).0
    case Opened(issue) => World(w.issues + [issue.(number := w.nextNumber)], w.nextNumber + 1)
    case Closed(number) => World(CloseAll(w.issues, number), w.nextNumber)
  }

  function AfterAll(w: World, owner: string, events: seq<Event>): World
    decreases |events|
  {
    if events == [] then w else AfterAll(After(w, owner, events[0]), owner, events[1..])
  }

  /** The canonical issue of a marker, by its place. */
  predicate IsCanonicalAt(w: World, marker: string, owner: string, at: nat) {
    at < |w.issues| && Canonical(w.issues[at], marker, owner)
  }

  lemma OneNumber(w: World, marker: string, owner: string)
    requires Single(w, marker, owner)
    ensures |Numbers(w.issues, marker, owner)| <= 1
    ensures Numbers(w.issues, marker, owner) == {} <==> forall at: nat :: !IsCanonicalAt(w, marker, owner, at)
    ensures forall at: nat | IsCanonicalAt(w, marker, owner, at) ::
              Numbers(w.issues, marker, owner) == {w.issues[at].number}
  {
    hide Canonical;
    var numbers := Numbers(w.issues, marker, owner);
    if at :| 0 <= at < |w.issues| && IsCanonicalAt(w, marker, owner, at) {
      assert w.issues[at].number in numbers;
      forall n | n in numbers ensures n == w.issues[at].number {
        var k :| 0 <= k < |w.issues| && Canonical(w.issues[k], marker, owner) && w.issues[k].number == n;
      }
      assert numbers == {w.issues[at].number};
    } else {
      forall k | 0 <= k < |w.issues| ensures !Canonical(w.issues[k], marker, owner) {
        assert !IsCanonicalAt(w, marker, owner, k);
      }
    }
  }

  /** Issues of other authors never stand for a version, whatever they contain. */
  lemma StrangersAreNeverCanonical(issue: Issue, marker: string, owner: string)
    requires !Owns(issue.author, owner)
    ensures !Canonical(issue, marker, owner)
  {
  }

  /** Rewriting the issue of one version leaves every issue's standing for any version alone. */
  lemma UpdateKeepsStanding(issue: Issue, number: nat, r: Request, version: string, owner: string)
    requires VersionText(version) && VersionText(r.version)
    requires issue.number == number ==> Canonical(issue, Marker(r.version), owner)
    ensures Canonical(Updated(issue, number, r), Marker(version), owner) <==> Canonical(issue, Marker(version), owner)
  {
    hide VersionText, Marker, FirstLine, Owns;
    BodyHeader(r.version, r.rest);
    MarkerInjective(version, r.version);
  }

  lemma UpsertKeeps(w: World, owner: string, r: Request, weather: Weather, version: string, at: nat)
    requires Single(w, Marker(version), owner) && VersionText(version)
    ensures var v := AfterUpsert(w, owner, r, weather).0;
            && Single(v, Marker(version), owner)
            && (IsCanonicalAt(w, Marker(version), owner, at) ==>
                  IsCanonicalAt(v, Marker(version), owner, at) && v.issues[at].number == w.issues[at].number)
  {
    hide VersionText, Marker, Canonical, Numbers;
    var found := Found(w, Marker(r.version), owner);
    if AfterUpsert(w, owner, r, weather).0 != w {
      if found.value.None? {
        CreateKeeps(w, owner, r, version);
      } else {
        FoundIsCanonical(w, Marker(r.version), owner);
        var n := found.value.value;
        var k :| 0 <= k < |w.issues| && w.issues[k].number == n && Canonical(w.issues[k], Marker(r.version), owner);
        forall l | 0 <= l < |w.issues|
          ensures Canonical(Updated(w.issues[l], n, r), Marker(version), owner)
                  <==> Canonical(w.issues[l], Marker(version), owner)
        {
          assert l != k ==> w.issues[l].number != n;
          UpdateKeepsStanding(w.issues[l], n, r, version, owner);
        }
      }
    }
  }

  lemma FoundIsCanonical(w: World, marker: string, owner: string)
    requires Found(w, marker, owner).Ok? && Found(w, marker, owner).value.Some?
    ensures exists k :: 0 <= k < |w.issues| && w.issues[k].number == Found(w, marker, owner).value.value
                        && Canonical(w.issues[k], marker, owner)
  {
    hide Canonical;
    assert Found(w, marker, owner).value.value in Numbers(w.issues, marker, owner);
  }

  lemma CreateKeeps(w: World, owner: string, r: Request, version: string)
    requires Single(w, Marker(version), owner) && VersionText(version) && VersionText(r.version)
    requires Numbers(w.issues, Marker(r.version), owner) == {}
    ensures Single(World(w.issues + [Created(w, r)], w.nextNumber + 1), Marker(version), owner)
  {
    hide VersionText, Marker, FirstLine, Owns;
    BodyHeader(r.version, r.rest);
    MarkerInjective(version, r.version);
    if version == r.version {
      OneNumber(w, Marker(version), owner);
      forall k | 0 <= k < |w.issues| ensures !Canonical(w.issues[k], Marker(version), owner) {
        assert !IsCanonicalAt(w, Marker(version), owner, k);
      }
    }
  }

  /** One event keeps the bound, and the canonical issue of the marker stays where it is. */
  lemma EventKeeps(w: World, owner: string, e: Event, version: string, at: nat)
    requires Single(w, Marker(version), owner) && Allowed(e, owner) && VersionText(version)
    ensures Single(After(w, owner, e), Marker(version), owner)
    ensures IsCanonicalAt(w, Marker(version), owner, at) ==>
              IsCanonicalAt(After(w, owner, e), Marker(version), owner, at)
              && After(w, owner, e).issues[at].number == w.issues[at].number
  {
    hide VersionText;
    match e
    case Upserted(r, weather) => UpsertKeeps(w, owner, r, weather, version, at);
    case Opened(issue) => StrangersAreNeverCanonical(issue.(number := w.nextNumber), Marker(version), owner);
    case Closed(number) =>
  }

  /** Over every run: at most one canonical issue per version, and it is never replaced. */
  lemma {:induction false} RunsKeep(w: World, owner: string, events: seq<Event>, version: string, at: nat)
    requires Single(w, Marker(version), owner) && VersionText(version)
    requires forall e | e in events :: Allowed(e, owner)
    ensures Single(AfterAll(w, owner, events), Marker(version), owner)
    ensures IsCanonicalAt(w, Marker(version), owner, at) ==>
              IsCanonicalAt(AfterAll(w, owner, events), Marker(version), owner, at)
              && AfterAll(w, owner, events).issues[at].number == w.issues[at].number
    decreases |events|
  {
    hide Single, VersionText, Canonical, Marker, After, Allowed;
    if events != [] {
      EventKeeps(w, owner, events[0], version, at);
      RunsKeep(After(w, owner, events[0]), owner, events[1..], version, at);
    }
  }

  /** An answered upsert by an owner or the workflow leaves its issue canonical. */
  lemma UpsertIsCanonical(w: World, owner: string, r: Request, weather: Weather) returns (at: nat)
    requires Single(w, Marker(r.version), owner) && AfterUpsert(w, owner, r, weather).1.Ok? && Owns(r.me, owner)
    ensures var (v, n) := AfterUpsert(w, owner, r, weather);
            IsCanonicalAt(v, Marker(r.version), owner, at) && v.issues[at].number == n.value
  {
    hide VersionText, Marker, Owns, Numbers;
    var found := Found(w, Marker(r.version), owner);
    BodyHeader(r.version, r.rest);
    if found.value.None? {
      at := |w.issues|;
    } else {
      FoundIsCanonical(w, Marker(r.version), owner);
      var k :| 0 <= k < |w.issues| && w.issues[k].number == found.value.value
               && Canonical(w.issues[k], Marker(r.version), owner);
      at := k;
    }
  }

  /** Two answered upserts of one version, with any run between them, return the same number. */
  lemma UpsertIsStable(w: World, owner: string, r: Request, weather: Weather, events: seq<Event>,
                       again: Request, weather2: Weather)
    requires Single(w, Marker(r.version), owner) && Owns(r.me, owner) && again.version == r.version
    requires forall e | e in events :: Allowed(e, owner)
    requires AfterUpsert(w, owner, r, weather).1.Ok?
    requires AfterUpsert(AfterAll(AfterUpsert(w, owner, r, weather).0, owner, events), owner, again, weather2).1.Ok?
    ensures AfterUpsert(AfterAll(AfterUpsert(w, owner, r, weather).0, owner, events), owner, again, weather2).1.value
            == AfterUpsert(w, owner, r, weather).1.value
  {
    hide VersionText, Marker, Owns, Numbers, Canonical, Single, AfterAll;
    var v := AfterUpsert(w, owner, r, weather).0;
    var at := UpsertIsCanonical(w, owner, r, weather);
    UpsertKeeps(w, owner, r, weather, r.version, at);
    RunsKeep(v, owner, events, r.version, at);
    OneNumber(AfterAll(v, owner, events), Marker(r.version), owner);
  }

  /** Repeating the upsert that created an issue finds it again exactly when its author owns it:
      an author the lookup does not trust leaves a new issue behind each time. */
  lemma RepeatFindsExactlyOwned(w: World, owner: string, r: Request)
    requires Single(w, Marker(r.version), owner) && AfterUpsert(w, owner, r, Clear).1 == Ok(w.nextNumber)
    requires |w.issues| + 1 < MAX_ISSUE_PAGES * ISSUES_PER_PAGE
    ensures var v := AfterUpsert(w, owner, r, Clear).0;
            AfterUpsert(v, owner, r, Clear).1 == Ok(w.nextNumber) <==> Owns(r.me, owner)
  {
    hide VersionText, Marker, Owns, Canonical;
    var marker := Marker(r.version);
    var v := AfterUpsert(w, owner, r, Clear).0;
    FreshNumber(w, marker, owner);
    assert v == World(w.issues + [Created(w, r)], w.nextNumber + 1);
    NumbersSnoc(w.issues, Created(w, r), marker, owner);
    CreatedStanding(w, owner, r);
  }

  lemma CreatedStanding(w: World, owner: string, r: Request)
    requires VersionText(r.version) && w.nextNumber > 0
    ensures Canonical(Created(w, r), Marker(r.version), owner) <==> Owns(r.me, owner)
  {
    hide VersionText, Marker, Owns;
    BodyHeader(r.version, r.rest);
  }

  lemma FreshNumber(w: World, marker: string, owner: string)
    requires Single(w, marker, owner)
    ensures w.nextNumber !in Numbers(w.issues, marker, owner)
  {
    hide Canonical;
  }
}
