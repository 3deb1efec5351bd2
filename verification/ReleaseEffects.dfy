/** What the release operations leave on the server and when they succeed, release by release and
    field by field. */
module ReleaseEffects {
  import opened Json
  import opened Collections
  import opened Remote
  import opened ReleaseProtocol

  // The forms of tags, commits and asset names.

  const DIGITS := "0123456789"
  const HEX_DIGITS := "0123456789abcdef"
  const LOWER := "abcdefghijklmnopqrstuvwxyz"
  const UPPER := "ABCDEFGHIJKLMNOPQRSTUVWXYZ"
  const LETTERS := LOWER + UPPER

  predicate Only(s: string, allowed: string) { forall k | 0 <= k < |s| :: s[k] in allowed }

  /** Parts with dots between. */
  function Joined(first: string, rest: seq<string>): string {
    if rest == [] then first else Joined(first, rest[..|rest| - 1]) + "." + rest[|rest| - 1]
  }

  /** `v`, then two or more numerals with dots between. */
  ghost predicate IsTag(tag: string) {
    exists first, rest :: NumeralParts(first, rest) && tag == "v" + Joined(first, rest)
  }

  predicate NumeralParts(first: string, rest: seq<string>) {
    && first != "" && Only(first, DIGITS) && rest != []
    && forall k | 0 <= k < |rest| :: rest[k] != "" && Only(rest[k], DIGITS)
  }

  predicate IsCommit(s: string) { |s| == 40 && Only(s, HEX_DIGITS) }

  predicate IsAssetName(s: string) {
    1 <= |s| <= 255 && s[0] in LETTERS + DIGITS && Only(s, LETTERS + DIGITS + "_.-")
  }

  lemma DigitExactly(c: char)
    ensures Digit(c) <==> c in DIGITS
  {
    assert forall k | 0 <= k < 10 :: DIGITS[k] == '0' + k as char;
    if Digit(c) { assert c == DIGITS[c as int - '0' as int]; }
  }

  lemma LowerExactly(c: char)
    ensures c in LOWER <==> 'a' <= c <= 'z'
  {
    assert forall k | 0 <= k < 26 :: LOWER[k] == 'a' + k as char;
    if 'a' <= c <= 'z' { assert c == LOWER[c as int - 'a' as int]; }
  }

  lemma UpperExactly(c: char)
    ensures c in UPPER <==> 'A' <= c <= 'Z'
  {
    assert forall k | 0 <= k < 26 :: UPPER[k] == 'A' + k as char;
    if 'A' <= c <= 'Z' { assert c == UPPER[c as int - 'A' as int]; }
  }

  lemma HexExactly(c: char)
    ensures c in HEX_DIGITS <==> Digit(c) || 'a' <= c <= 'f'
  {
    assert forall k | 0 <= k < 10 :: HEX_DIGITS[k] == '0' + k as char;
    assert forall k | 10 <= k < 16 :: HEX_DIGITS[k] == 'a' + (k - 10) as char;
    if Digit(c) { assert c == HEX_DIGITS[c as int - '0' as int]; }
    if 'a' <= c <= 'f' { assert c == HEX_DIGITS[10 + (c as int - 'a' as int)]; }
  }

  lemma NameExactly(s: string)
    ensures SafeName(s) <==> IsAssetName(s)
  {
    hide DIGITS, LOWER, UPPER;
    forall k | 0 <= k < |s| ensures s[k] in LETTERS + DIGITS <==> Alphanumeric(s[k]) {
      DigitExactly(s[k]);
      LowerExactly(s[k]);
      UpperExactly(s[k]);
    }
  }

  lemma CommitExactly(s: string)
    ensures CommitForm(s) <==> IsCommit(s)
  {
    forall k | 0 <= k < |s| ensures s[k] in HEX_DIGITS <==> Digit(s[k]) || 'a' <= s[k] <= 'f' { HexExactly(s[k]); }
  }

  /** Digits and single dots between them. */
  predicate Grouped(t: string) {
    && t != ""
    && forall k | 0 <= k < |t| :: Digit(t[k]) || (t[k] == '.' && 0 < k < |t| - 1 && Digit(t[k - 1]))
  }

  lemma TagIsGrouped(tag: string)
    ensures TagForm(tag) <==> tag != "" && tag[0] == 'v' && '.' in tag[1..] && Grouped(tag[1..])
  {
    if tag != "" && tag[0] == 'v' {
      var t := tag[1..];
      assert forall k | 0 <= k < |t| :: t[k] == tag[k + 1];
      assert forall k | 1 <= k < |tag| :: tag[k] == t[k - 1];
    }
  }

  lemma {:induction false} GroupsSplit(t: string) returns (first: string, rest: seq<string>)
    requires Grouped(t)
    ensures first != "" && Only(first, DIGITS) && forall k | 0 <= k < |rest| :: rest[k] != "" && Only(rest[k], DIGITS)
    ensures t == Joined(first, rest) && (rest == [] <==> '.' !in t)
    decreases |t|
  {
    hide DIGITS;
    var n := |t| - 1;
    DigitExactly(t[n]);
    assert t == t[..n] + [t[n]];
    if n == 0 {
      first, rest := t, [];
    } else if t[n - 1] == '.' {
      assert t == t[..n - 1] + "." + [t[n]];
      first, rest := GroupsSplit(t[..n - 1]);
      JoinedMore(first, rest, [t[n]]);
      rest := rest + [[t[n]]];
    } else {
      first, rest := GroupsSplit(t[..n]);
      first, rest := AppendDigit(first, rest, t[n]);
    }
  }

  lemma JoinedMore(first: string, rest: seq<string>, part: string)
    ensures Joined(first, rest + [part]) == Joined(first, rest) + "." + part
  {
    assert (rest + [part])[..|rest|] == rest;
  }

  lemma AppendDigit(first: string, rest: seq<string>, c: char) returns (first': string, rest': seq<string>)
    requires first != "" && Only(first, DIGITS) && forall k | 0 <= k < |rest| :: rest[k] != "" && Only(rest[k], DIGITS)
    requires c in DIGITS
    ensures first' != "" && Only(first', DIGITS)
    ensures forall k | 0 <= k < |rest'| :: rest'[k] != "" && Only(rest'[k], DIGITS)
    ensures Joined(first', rest') == Joined(first, rest) + [c] && (rest' == [] <==> rest == [])
  {
    if rest == [] {
      first', rest' := first + [c], [];
    } else {
      var n := |rest| - 1;
      first', rest' := first, rest[..n] + [rest[n] + [c]];
      assert rest'[..n] == rest[..n];
    }
  }

  lemma {:induction false} PartsGroup(first: string, rest: seq<string>)
    requires first != "" && Only(first, DIGITS) && forall k | 0 <= k < |rest| :: rest[k] != "" && Only(rest[k], DIGITS)
    ensures Grouped(Joined(first, rest)) && (rest != [] ==> '.' in Joined(first, rest))
    decreases |rest|
  {
    hide Grouped, Only;
    if rest == [] {
      DigitsGroup(first);
    } else {
      var n := |rest| - 1;
      PartsGroup(first, rest[..n]);
      DigitsGroup(rest[n]);
      PartGrows(Joined(first, rest[..n]), rest[n]);
    }
  }

  lemma DigitsGroup(s: string)
    requires s != "" && Only(s, DIGITS)
    ensures Grouped(s) && forall k | 0 <= k < |s| :: Digit(s[k])
  {
    hide DIGITS;
    forall k | 0 <= k < |s| ensures Digit(s[k]) { DigitExactly(s[k]); }
  }

  lemma PartGrows(t: string, part: string)
    requires Grouped(t) && part != "" && forall k | 0 <= k < |part| :: Digit(part[k])
    ensures Grouped(t + "." + part) && '.' in t + "." + part
  {
    hide Digit;
    var s := t + "." + part;
    assert s[|t|] == '.';
    forall k | 0 <= k < |s| ensures Digit(s[k]) || (s[k] == '.' && 0 < k < |s| - 1 && Digit(s[k - 1])) {
      if k < |t| {
        assert s[k] == t[k] && (k > 0 ==> s[k - 1] == t[k - 1]);
      } else if k > |t| {
        assert s[k] == part[k - |t| - 1];
      } else {
        assert s[k - 1] == t[|t| - 1];
      }
    }
  }

  lemma TagExactly(tag: string)
    ensures TagForm(tag) <==> IsTag(tag)
  {
    hide TagForm, Only, Grouped, Joined;
    TagIsGrouped(tag);
    if TagForm(tag) {
      var first, rest := GroupsSplit(tag[1..]);
      assert NumeralParts(first, rest) && tag == "v" + Joined(first, rest);
    }
    if first, rest :| NumeralParts(first, rest) && tag == "v" + Joined(first, rest) {
      PartsGroup(first, rest);
      assert tag[1..] == Joined(first, rest);
    }
  }

  // What a release must be.

  ghost predicate Requested(i: Identity) { IsTag(i.tag) && IsCommit(i.target) && i.title == i.tag }

  /** The release is the requested one, field by field, and its assets are well named. */
  predicate Agrees(r: Release, i: Identity) {
    && r.id > 0 && r == Release(r.id, i.tag, i.target, i.tag, i.notes, r.draft, false, r.assets)
    && (forall a | a in r.assets :: a.id > 0 && IsAssetName(a.name))
    && (forall k, l | 0 <= k < l < |r.assets| :: r.assets[k].name != r.assets[l].name)
  }

  lemma ValidExactly(r: Release, i: Identity, requireDraft: Option<bool>)
    ensures ValidateRelease(r, i, requireDraft) in {Ok(r), Err}
    ensures ValidateRelease(r, i, requireDraft).Ok? <==>
            Requested(i) && Agrees(r, i) && (requireDraft.Some? ==> r.draft == requireDraft.value)
  {
    hide TagForm, CommitForm, SafeName, IsTag, IsCommit, IsAssetName;
    TagExactly(i.tag);
    CommitExactly(i.target);
    forall k | 0 <= k < |r.assets| ensures SafeName(r.assets[k].name) <==> IsAssetName(r.assets[k].name) {
      NameExactly(r.assets[k].name);
    }
    assert forall a | a in r.assets :: exists k :: 0 <= k < |r.assets| && r.assets[k] == a;
  }

  lemma RequestedExactly(i: Identity)
    ensures WellFormed(i) <==> Requested(i)
  {
    hide TagForm, CommitForm, IsTag, IsCommit;
    TagExactly(i.tag);
    CommitExactly(i.target);
  }

  // Making sure that a release exists.

  /** The answer of a successful `ensure` agrees with the request and is on the server. It was
      there before, and nothing has changed; or no release carried the tag, and the server has one
      more, a draft without assets. */
  lemma EnsureEffect(w: World, i: Identity, weather: Weather)
    requires AfterEnsure(w, i, weather).1.Ok?
    ensures var (v, r) := AfterEnsure(w, i, weather);
            && Requested(i) && Agrees(r.value, i)
            && (|| (v == w && r.value in w.releases)
                || (&& (forall k | 0 <= k < |w.releases| :: w.releases[k].tag != i.tag)
                    && v == World(w.releases + [r.value], w.nextId + 1)
                    && r.value.id == w.nextId && r.value.draft && r.value.assets == []))
  {
    hide Requested, Agrees, ValidateRelease, WellFormed, ByTag, Tagged;
    var (v, r) := AfterEnsure(w, i, weather);
    ValidExactly(r.value, i, None);
    ValidExactly(r.value, i, Some(true));
    TaggedExact(w.releases, i.tag);
    ByTagIsListed(w.releases, i.tag);
    if ByTag(w.releases, i.tag).Some? {
      ValidExactly(ByTag(w.releases, i.tag).value, i, None);
    } else if Tagged(w.releases, i.tag) != [] {
      ValidExactly(Tagged(w.releases, i.tag)[0], i, None);
    } else {
      ValidExactly(Created(w, i), i, Some(true));
    }
  }

  /** In clear weather it succeeds exactly when the request is well formed and either the published
      release of the tag agrees; or there is none, the listing fits 500 releases, and the one draft
      of the tag, if any, agrees. */
  lemma EnsureSucceedsExactly(w: World, i: Identity)
    requires Once(w, i.tag)
    ensures AfterEnsure(w, i, Clear).1.Ok? <==>
            && Requested(i)
            && (forall r | r in w.releases && r.tag == i.tag :: Agrees(r, i))
            && (|w.releases| <= 500 || exists r :: r in w.releases && r.tag == i.tag && !r.draft)
  {
    hide Requested, Agrees, ValidateRelease, WellFormed, ByTag, Tagged, Once;
    RequestedExactly(i);
    TaggedExact(w.releases, i.tag);
    ByTagIsListed(w.releases, i.tag);
    OneTagged(w, i.tag);
    if Requested(i) { FreshAgrees(w, i); }
    forall r ensures ValidateRelease(r, i, None).Ok? <==> Requested(i) && Agrees(r, i) { ValidExactly(r, i, None); }
    ValidExactly(Created(w, i), i, Some(true));
  }

  lemma FreshAgrees(w: World, i: Identity)
    requires Once(w, i.tag) && Requested(i)
    ensures Agrees(Created(w, i), i)
  {
  }

  lemma OneTagged(w: World, tag: string)
    requires Once(w, tag)
    ensures |Tagged(w.releases, tag)| <= 1
    ensures forall r | r in w.releases && r.tag == tag :: Tagged(w.releases, tag) == [r]
  {
    TaggedOnce(w.releases, tag);
  }

  lemma {:induction false} TaggedOnce(releases: seq<Release>, tag: string)
    requires forall k, l | 0 <= k < l < |releases| && releases[k].tag == tag :: releases[l].tag != tag
    ensures |Tagged(releases, tag)| <= 1
    ensures forall r | r in releases && r.tag == tag :: Tagged(releases, tag) == [r]
  {
    if releases != [] {
      var n := |releases| - 1;
      TaggedOnce(releases[..n], tag);
      assert releases == releases[..n] + [releases[n]];
      if releases[n].tag == tag {
        assert forall k | 0 <= k < n :: releases[k].tag != tag;
        TaggedExact(releases[..n], tag);
      }
    }
  }

  // Assets.

  /** A successful upload adds the asset to the end of the named draft and changes nothing else. */
  lemma UploadEffect(w: World, id: nat, i: Identity, name: string, size: nat, weather: Weather)
    requires AfterUpload(w, id, i, name, size, weather).1.Ok?
    ensures var (v, a) := AfterUpload(w, id, i, name, size, weather);
            exists at :: && 0 <= at < |w.releases| && w.releases[at].id == id
                         && w.releases[at].draft && Requested(i) && Agrees(w.releases[at], i)
                         && a.value == Asset(w.nextId, name, size) && a.value.id > 0
                         && IsAssetName(name) && (forall b | b in w.releases[at].assets :: b.name != name)
                         && 0 < size <= 10_485_760
                         && v == World(w.releases[at := w.releases[at].(assets := w.releases[at].assets + [a.value])],
                                       w.nextId + 1)
  {
    hide Requested, Agrees, ValidateRelease, IsAssetName, SafeName, IndexOf;
    var at := IndexOf(w.releases, id).value;
    ValidExactly(w.releases[at], i, None);
    NameExactly(name);
    forall b | b in w.releases[at].assets ensures b.name != name {
      var k :| 0 <= k < |w.releases[at].assets| && w.releases[at].assets[k] == b;
      assert Names(w.releases[at].assets)[k] == b.name;
    }
  }

  /** The release with this number, as the client asked for it. */
  ghost predicate Named(w: World, r: Release, id: nat, i: Identity) {
    r in w.releases && r.id == id && Requested(i) && Agrees(r, i)
  }

  lemma FoundById(w: World, id: nat, i: Identity, r: Release)
    requires Once(w, i.tag)
    ensures Named(w, r, id, i) <==>
            && IndexOf(w.releases, id).Some? && w.releases[IndexOf(w.releases, id).value] == r
            && ValidateRelease(r, i, None).Ok?
  {
    hide Requested, Agrees, ValidateRelease;
    ValidExactly(r, i, None);
    if Named(w, r, id, i) {
      var k :| 0 <= k < |w.releases| && w.releases[k] == r;
      var at := IndexOf(w.releases, id).value;
      assert w.releases[at].id == w.releases[k].id;
    }
  }

  predicate Free(r: Release, name: string) { forall a | a in r.assets :: a.name != name }

  lemma FreeExactly(r: Release, name: string)
    ensures Free(r, name) <==> name !in Names(r.assets)
  {
    if name in Names(r.assets) {
      var k :| 0 <= k < |Names(r.assets)| && Names(r.assets)[k] == name;
      assert r.assets[k] in r.assets;
    }
    forall a | a in r.assets && a.name == name ensures name in Names(r.assets) {
      var k :| 0 <= k < |r.assets| && r.assets[k] == a;
      assert Names(r.assets)[k] == name;
    }
  }

  /** In clear weather an upload succeeds exactly when the named release is a draft without an
      asset of that name, the name is well formed, and the file is not empty or too large. */
  lemma UploadSucceedsExactly(w: World, id: nat, i: Identity, name: string, size: nat)
    requires Once(w, i.tag)
    ensures AfterUpload(w, id, i, name, size, Clear).1.Ok? <==>
            && IsAssetName(name) && 0 < size <= 10_485_760
            && exists r :: Named(w, r, id, i) && r.draft && Free(r, name)
  {
    hide Once, ValidateRelease, IsAssetName, SafeName, IndexOf, Named, Free;
    NameExactly(name);
    forall r ensures Free(r, name) <==> name !in Names(r.assets) { FreeExactly(r, name); }
    forall r
      ensures Named(w, r, id, i) <==>
              && IndexOf(w.releases, id).Some? && w.releases[IndexOf(w.releases, id).value] == r
              && ValidateRelease(r, i, None).Ok?
    {
      FoundById(w, id, i, r);
    }
    FreshNumber(w, i.tag);
  }

  lemma FreshNumber(w: World, tag: string)
    requires Once(w, tag)
    ensures w.nextId > 0
  {
  }

  lemma {:induction false} CountedOnce(s: seq<string>, x: string)
    requires Distinct(s)
    ensures multiset(s)[x] == if x in s then 1 else 0
  {
    if s != [] {
      var n := |s| - 1;
      assert s == s[..n] + [s[n]];
      CountedOnce(s[..n], x);
      assert s[n] !in s[..n];
    }
  }

  /** The release holds exactly these assets. */
  ghost predicate Holds(r: Release, expected: seq<string>) {
    |r.assets| == |expected| && forall n :: n in expected <==> exists a :: a in r.assets && a.name == n
  }

  lemma HoldsExactly(r: Release, expected: seq<string>)
    requires Distinct(expected) && Distinct(Names(r.assets))
    ensures Holds(r, expected) <==> multiset(Names(r.assets)) == multiset(expected)
  {
    if multiset(Names(r.assets)) == multiset(expected) {
      SameNames(r.assets, expected);
    }
    if Holds(r, expected) {
      forall x ensures multiset(Names(r.assets))[x] == multiset(expected)[x] {
        CountedOnce(expected, x);
        CountedOnce(Names(r.assets), x);
        FreeExactly(r, x);
      }
    }
  }

  /** In clear weather a publication succeeds exactly when the expected names are well formed and
      pairwise distinct, and the named release holds exactly them. */
  lemma PublishSucceedsExactly(w: World, id: nat, i: Identity, expected: seq<string>)
    requires Once(w, i.tag)
    ensures AfterPublish(w, id, i, expected, Clear).1.Ok? <==>
            && (forall n | n in expected :: IsAssetName(n)) && Distinct(expected)
            && exists r :: Named(w, r, id, i) && Holds(r, expected)
  {
    hide Once, ValidateRelease, IsAssetName, SafeName, IndexOf, Named, Holds, Distinct;
    forall n ensures SafeName(n) <==> IsAssetName(n) { NameExactly(n); }
    forall r
      ensures Named(w, r, id, i) <==>
              && IndexOf(w.releases, id).Some? && w.releases[IndexOf(w.releases, id).value] == r
              && ValidateRelease(r, i, None).Ok?
    {
      FoundById(w, id, i, r);
    }
    var at := IndexOf(w.releases, id);
    if at.Some? && ValidateRelease(w.releases[at.value], i, None).Ok? {
      var r := w.releases[at.value];
      PublishedStaysValid(r, i);
      if Distinct(expected) { HoldsExactly(r, expected); }
    }
  }

  lemma PublishedStaysValid(r: Release, i: Identity)
    requires ValidateRelease(r, i, None).Ok?
    ensures Distinct(Names(r.assets)) && ValidateRelease(r.(draft := false), i, Some(false)).Ok?
  {
    hide SafeName, WellFormed;
  }

  /** A successful publication leaves the named release a published one with the same fields and
      exactly the expected assets, and changes nothing else. */
  lemma PublishEffect(w: World, id: nat, i: Identity, expected: seq<string>, weather: Weather)
    requires AfterPublish(w, id, i, expected, weather).1.Ok?
    ensures var (v, r) := AfterPublish(w, id, i, expected, weather);
            exists at :: && 0 <= at < |w.releases| && w.releases[at].id == id
                         && Requested(i) && Agrees(w.releases[at], i)
                         && r.value == w.releases[at].(draft := false)
                         && v == World(w.releases[at := r.value], w.nextId)
                         && Holds(r.value, expected)
  {
    hide Requested, Agrees, ValidateRelease, SafeName, IndexOf;
    var at, r := IndexOf(w.releases, id).value, AfterPublish(w, id, i, expected, weather).1.value;
    ValidExactly(w.releases[at], i, None);
    ValidExactly(w.releases[at].(draft := false), i, Some(false));
    SameNames(w.releases[at].assets, expected);
  }

  lemma SameNames(assets: seq<Asset>, expected: seq<string>)
    requires multiset(Names(assets)) == multiset(expected)
    ensures |expected| == |assets|
    ensures forall n :: n in expected <==> exists a :: a in assets && a.name == n
  {
    assert |multiset(Names(assets))| == |Names(assets)| && |multiset(expected)| == |expected|;
    forall n ensures n in expected <==> exists a :: a in assets && a.name == n {
      assert n in expected <==> n in multiset(expected);
      assert n in Names(assets) <==> n in multiset(Names(assets));
      if n in Names(assets) {
        var k :| 0 <= k < |Names(assets)| && Names(assets)[k] == n;
        assert assets[k] in assets;
      }
      if a :| a in assets && a.name == n {
        var k :| 0 <= k < |assets| && assets[k] == a;
        assert Names(assets)[k] == n;
      }
    }
  }

  /** An operation that changes anything is answered, unless its answer is lost: a failed one has
      changed nothing. */
  lemma ChangesAreAnswered(w: World, c: Call)
    requires Once(w, "") && After(w, c) != w && !c.weather.AnswerLost?
    ensures match c.command
            case Ensure(i) => AfterEnsure(w, i, c.weather).1.Ok?
            case Upload(id, i, name, size) => AfterUpload(w, id, i, name, size, c.weather).1.Ok?
            case Publish(id, i, expected) => AfterPublish(w, id, i, expected, c.weather).1.Ok?
  {
  }
}
